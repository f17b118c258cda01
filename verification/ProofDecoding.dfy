/** The merkleizer as a whole: the leaves of its proofs, by themselves, read what the metadata says. */
module ProofDecoding {
  import opened Basics
  import opened Closures
  import opened DecodeCollect
  import opened TypeTree
  import MerkleProof
  import MerkleHash
  import HeapTree

  /** How leaves are written and read back. */
  datatype LeafCodec<!L> = LeafCodec(enc: Leaf -> L, dec: L -> Leaf)

  ghost predicate RoundTrips<L>(codec: LeafCodec<L>) {
    forall leaf :: codec.dec(codec.enc(leaf)) == leaf
  }

  function EncodeAll<L>(codec: LeafCodec<L>, leaves: seq<Leaf>): (r: seq<L>)
    ensures |r| == |leaves| && forall k :: 0 <= k < |r| ==> r[k] == codec.enc(leaves[k])
  {
    seq(|leaves|, k requires 0 <= k < |leaves| => codec.enc(leaves[k]))
  }

  /** The leaves that a verifier reads in a proof. */
  function LeavesOf<L>(codec: LeafCodec<L>, proof: seq<L>): (r: seq<Leaf>)
    ensures |r| == |proof| && forall k :: 0 <= k < |r| ==> r[k] == codec.dec(proof[k])
  {
    seq(|proof|, k requires 0 <= k < |proof| => codec.dec(proof[k]))
  }

  // ------------------------------------------------------- the order of a proof

  /** `order` lists the positions of the leaves as the proof does: rotated, none twice. */
  ghost predicate IsOrder(n: nat, known: seq<nat>, leafIdxs: seq<nat>, order: seq<nat>) {
    && |order| == |leafIdxs| && NoDuplicates(order)
    && (forall k :: 0 <= k < |order| ==> leafIdxs[k] == order[k] + (n - 1))
    && (forall x :: x in order <==> x in known)
  }

  function NodeOf(n: nat, position: nat): nat
    requires n > 0
  {
    n - 1 + position
  }

  ghost predicate IsPosition(n: nat, known: seq<nat>, node: nat)
    requires n > 0
  {
    node >= n - 1 && node - (n - 1) in known
  }

  lemma OrderOfProof(n: nat, known: seq<nat>, leafIdxs: seq<nat>) returns (order: seq<nat>)
    requires n > 0 && forall k :: 0 <= k < |known| ==> known[k] < n
    requires leafIdxs == MerkleProof.KnownBelow(n, MerkleProof.KnownSet(n, known), 0)
    ensures IsOrder(n, known, leafIdxs, order)
  {
    MembersOfProof(n, known, leafIdxs);
    order := seq(|leafIdxs|, k requires 0 <= k < |leafIdxs| => leafIdxs[k] - (n - 1));
    SamePositions(n, known, leafIdxs, order);
  }

  lemma SamePositions(n: nat, known: seq<nat>, leafIdxs: seq<nat>, order: seq<nat>)
    requires n > 0 && |order| == |leafIdxs|
    requires NoDuplicates(leafIdxs) && forall k :: 0 <= k < |leafIdxs| ==> IsPosition(n, known, leafIdxs[k])
    requires forall x :: x in known ==> NodeOf(n, x) in leafIdxs
    requires forall k :: 0 <= k < |order| ==> order[k] == leafIdxs[k] - (n - 1)
    ensures IsOrder(n, known, leafIdxs, order)
  {
    hide IsPosition, NodeOf;
    forall x | x in known ensures x in order {
      KnownIsListed(n, leafIdxs, order, x);
    }
    forall k | 0 <= k < |order| ensures order[k] in known {
      ListedIsKnown(n, known, leafIdxs[k]);
    }
  }

  lemma KnownIsListed(n: nat, leafIdxs: seq<nat>, order: seq<nat>, x: nat)
    requires n > 0 && |order| == |leafIdxs| && NodeOf(n, x) in leafIdxs
    requires forall k :: 0 <= k < |order| ==> order[k] == leafIdxs[k] - (n - 1)
    ensures x in order
  {
    var k: nat :| k < |leafIdxs| && leafIdxs[k] == NodeOf(n, x);
    assert order[k] == x;
  }

  lemma ListedIsKnown(n: nat, known: seq<nat>, node: nat)
    requires n > 0 && IsPosition(n, known, node)
    ensures node >= n - 1 && node - (n - 1) in known
  {
  }

  lemma MembersOfProof(n: nat, known: seq<nat>, leafIdxs: seq<nat>)
    requires n > 0 && forall k :: 0 <= k < |known| ==> known[k] < n
    requires leafIdxs == MerkleProof.KnownBelow(n, MerkleProof.KnownSet(n, known), 0)
    ensures NoDuplicates(leafIdxs) && forall k :: 0 <= k < |leafIdxs| ==> IsPosition(n, known, leafIdxs[k])
    ensures forall x :: x in known ==> NodeOf(n, x) in leafIdxs
  {
    var nodes := MerkleProof.KnownSet(n, known);
    MerkleHash.KnownSetLeaves(n, known);
    MerkleProof.KnownBelowMembers(n, nodes, 0);
    MerkleProof.KnownBelowOrdered(n, nodes, 0);
    hide MerkleProof.KnownBelow, MerkleProof.Place, MerkleProof.Within, MerkleProof.KnownSet, HeapTree.Under;
    forall x | x in known ensures NodeOf(n, x) in leafIdxs {
      NodeIsKnown(n, known, x);
      HeapTree.UnderRoot(NodeOf(n, x));
    }
    forall k | 0 <= k < |leafIdxs| ensures IsPosition(n, known, leafIdxs[k]) {
      assert leafIdxs[k] in leafIdxs;
      KnownIsNode(n, known, leafIdxs[k]);
    }
  }

  lemma NodeIsKnown(n: nat, known: seq<nat>, x: nat)
    requires n > 0 && x in known
    ensures NodeOf(n, x) in MerkleProof.KnownSet(n, known)
  {
    var k: nat :| k < |known| && known[k] == x;
    assert MerkleProof.ToNodes(n, known)[k] == NodeOf(n, x);
  }

  lemma KnownIsNode(n: nat, known: seq<nat>, node: nat)
    requires n > 0 && node in MerkleProof.KnownSet(n, known)
    ensures IsPosition(n, known, node)
  {
    var i: nat :| i < |known| && MerkleProof.ToNodes(n, known)[i] == node;
    assert known[i] in known;
  }

  /** The leaves that stand at the positions `order` are what a verifier reads in the proof. */
  lemma ProofLeaves<L>(codec: LeafCodec<L>, lookup: seq<Leaf>, leafIdxs: seq<nat>, known: seq<nat>, order: seq<nat>,
                       proof: seq<L>)
    requires RoundTrips(codec) && lookup != [] && Within(known, lookup)
    requires IsOrder(|lookup|, known, leafIdxs, order)
    requires MerkleProof.Paired(EncodeAll(codec, lookup), proof, leafIdxs)
    ensures Within(order, lookup) && LeavesOf(codec, proof) == Restrict(lookup, order)
  {
    var n := |lookup|;
    forall k | 0 <= k < |order| ensures order[k] < n {
      assert order[k] in order;
      var i: nat :| i < |known| && known[i] == order[k];
    }
    forall k | 0 <= k < |order| ensures LeavesOf(codec, proof)[k] == Restrict(lookup, order)[k] {
      assert MerkleProof.IsLeaf(n, leafIdxs[k]);
      assert proof[k] == codec.enc(lookup[order[k]]);
    }
  }

  function UpTo(n: nat): (r: set<nat>)
    ensures forall k: nat :: k in r <==> k < n
  {
    if n == 0 then {} else UpTo(n - 1) + {n - 1}
  }

  lemma EveryPosition(idxs: seq<nat>)
    ensures AllPositions(idxs) == UpTo(|idxs|)
  {
  }

  lemma NoneWithin(known: seq<nat>, lookup: seq<Leaf>)
    requires Within(known, lookup)
    ensures lookup != [] || known == []
  {
    if known != [] {
      assert known[0] < |lookup|;
    }
  }

  lemma WithinBounds(known: seq<nat>, lookup: seq<Leaf>)
    requires Within(known, lookup)
    ensures forall k :: 0 <= k < |known| ==> known[k] < |lookup|
  {
  }

  lemma FitIff(n: nat, known: seq<nat>, leafIdxs: seq<nat>)
    requires n > 0 && forall k :: 0 <= k < |known| ==> known[k] < n
    requires leafIdxs == MerkleProof.KnownBelow(n, MerkleProof.KnownSet(n, known), 0)
    ensures MerkleProof.FitShift(MerkleProof.KnownSet(n, known))
            <==> forall k :: 0 <= k < |leafIdxs| ==> leafIdxs[k] < HeapTree.MAX_INT32
  {
    var nodes := MerkleProof.KnownSet(n, known);
    MerkleHash.KnownSetLeaves(n, known);
    MerkleProof.KnownBelowMembers(n, nodes, 0);
    hide MerkleProof.KnownBelow, MerkleProof.KnownSet, HeapTree.Under;
    forall x | x in nodes ensures x in leafIdxs {
      HeapTree.UnderRoot(x);
    }
    forall k | 0 <= k < |leafIdxs| ensures leafIdxs[k] in nodes {
      assert leafIdxs[k] in leafIdxs;
    }
  }

  /** What the leaves of a proof, as a verifier reads them, decode to. */
  lemma ProofIsRead<L>(compact: Compact, codec: LeafCodec<L>, c: Compilation, lenient: bool, fuel: nat, data: seq<Byte>,
                       types: seq<nat>,
                       typeRefs: seq<TypeRef>, known: seq<nat>, leaves: seq<L>, leafIdxs: seq<nat>)
    requires WellMade(c) && RoundTrips(codec)
    requires GetTypeRefs(c.md, types) == Some(typeRefs) && forall id :: id in types ==> IsRoot(c, id)
    requires ReadTypes(compact, c.md.defs, c.md.stack, lenient, fuel, data, types).Read?
    requires Within(known, c.lookup)
    requires var d := DecodeAll(compact, c.lookup, fuel, data, typeRefs);
             d.Done? ==> forall k :: k in known <==> k in d.leaves
    requires c.lookup != [] ==>
               && leafIdxs == MerkleProof.KnownBelow(|c.lookup|, MerkleProof.KnownSet(|c.lookup|, known), 0)
               && MerkleProof.Paired(EncodeAll(codec, c.lookup), leaves, leafIdxs)
    requires c.lookup == [] ==> leaves == []
    ensures DecodeAll(compact, LeavesOf(codec, leaves), fuel, data, typeRefs)
            == Done(ReadTypes(compact, c.md.defs, c.md.stack, lenient, fuel, data, types).rest, UpTo(|leaves|))
  {
    hide DecodeAll, ReadTypes, GetTypeRefs, WellMade, RoundTrips, IsRoot, MerkleProof.KnownBelow, MerkleProof.KnownSet,
        MerkleProof.Paired;
    var order: seq<nat> := [];
    if c.lookup != [] {
      order := OrderOfProof(|c.lookup|, known, leafIdxs);
      ProofLeaves(codec, c.lookup, leafIdxs, known, order, leaves);
    } else {
      NoneWithin(known, c.lookup);
      assert LeavesOf(codec, leaves) == [] == Restrict(c.lookup, order);
    }
    ProofReadsMetadata(compact, c, lenient, fuel, data, types, order);
    EveryPosition(order);
    assert |order| == |leaves|;
  }

  /** What decoding reports for each way in which reading ends. */
  function StatusOf(reading: Reading): Status {
    match reading
    case Read(_) => Ok
    case BeyondFuel => TooDeep
    case _ => Error
  }

  class MetadataMerkleizer<L(!new), H(0,!new)> {
    const compact: Compact
    const codec: LeafCodec<L>
    const lookup: seq<Leaf>
    const merkleizer: MerkleHash.Merkleizer<L, H>
    ghost const c: Compilation

    ghost predicate Valid()
      reads merkleizer, merkleizer.hashTree
    {
      && merkleizer.Valid() && merkleizer.lookupEncoded == EncodeAll(codec, lookup)
      && RoundTrips(codec) && WellMade(c) && c.lookup == lookup
    }

    constructor (compact: Compact, codec: LeafCodec<L>, h: MerkleHash.Hasher<L, H>, lookup: seq<Leaf>,
                 ghost c: Compilation)
      requires RoundTrips(codec) && WellMade(c) && c.lookup == lookup
      ensures Valid() && this.c == c && this.compact == compact && this.codec == codec && merkleizer.h == h
      ensures fresh(merkleizer) && merkleizer.hashTree == null
    {
      this.compact, this.codec, this.lookup, this.c := compact, codec, lookup, c;
      merkleizer := new MerkleHash.Merkleizer(h, EncodeAll(codec, lookup));
    }

    /** How the data reads by the definitions of the metadata. */
    ghost function Means(data: seq<Byte>, types: seq<nat>, fuel: nat): Reading {
      ReadTypes(compact, c.md.defs, c.md.stack, false, fuel, data, types)
    }

    /** ... and how if enumerations without variants stand for `()`. */
    ghost function Reads(data: seq<Byte>, types: seq<nat>, fuel: nat): Reading {
      ReadTypes(compact, c.md.defs, c.md.stack, true, fuel, data, types)
    }

    /**
     * A proof for the data. If the data has the types `types`, then a verifier who only has the leaves
     * of the proof reads the same bytes with them and takes every one of them.
     */
    method GetProof(data: seq<Byte>, ghost types: seq<nat>, typeRefs: seq<TypeRef>, fuel: nat)
      returns (status: Status, leaves: seq<L>, leafIdxs: seq<nat>, proofs: seq<H>)
      requires Valid() && |lookup| <= MerkleProof.MAX_LEAVES
      requires AllReferTo(c.md, types, typeRefs) && forall id :: id in types ==> IsRoot(c, id)
      modifies merkleizer
      ensures Valid()
      ensures status == StatusOf(Reads(data, types, fuel))
      ensures Means(data, types, fuel) == Reads(data, types, fuel) || Means(data, types, fuel).NoVariant?
      ensures status == Ok ==> |leaves| == |leafIdxs| && forall k :: 0 <= k < |leafIdxs| ==> leafIdxs[k] < 2 * |lookup|
      ensures Reads(data, types, fuel).Read? ==>
                DecodeAll(compact, LeavesOf(codec, leaves), fuel, data, typeRefs)
                == Done(Reads(data, types, fuel).rest, UpTo(|leaves|))
      ensures status == Ok ==>
                (MerkleHash.Replay(merkleizer.h, leafIdxs, leaves, proofs, 0, 0, 0, 2 * |lookup|)
                 == MerkleHash.Rebuilt(MerkleHash.Root(merkleizer.h, EncodeAll(codec, lookup)), |leaves|, |proofs|)
                 <==> forall k :: 0 <= k < |leafIdxs| ==> leafIdxs[k] < HeapTree.MAX_INT32)
    {
      hide DecodeAll, ReadTypes, GetTypeRefs, WellMade, RoundTrips, IsRoot, SoleUnlessEnumeration, Restrict,
          AllPositions;
      hide MerkleHash.Replay, MerkleProof.KnownBelow, MerkleProof.KnownSet, MerkleProof.FitShift, MerkleProof.Paired;
      GivenAllReferTo(c.md, types, typeRefs);
      var known;
      status, known := DecodeAndCollectKnownLeafs(compact, data, typeRefs, lookup, fuel);
      leaves, leafIdxs, proofs := [], [], [];
      DecodesAllLeniently(compact, c, fuel, data, types);
      StrictOrNoVariantAll(compact, c.md.defs, c.md.stack, fuel, data, types);
      if status == Ok {
        WithinBounds(known, lookup);
        leaves, leafIdxs, proofs := merkleizer.GenerateProof(known);
        if lookup != [] {
          FitIff(|lookup|, known, leafIdxs);
        }
        if Reads(data, types, fuel).Read? {
          ProofIsRead(compact, codec, c, true, fuel, data, types, typeRefs, known, leaves, leafIdxs);
        }
      }
    }
  }

  /**
   * The merkleizer for the types that the roots lead to; it exists exactly if all of them have leaves.
   */
  method MerkleizeMetadata<L(!new), H(0,!new)>(compact: Compact, codec: LeafCodec<L>, h: MerkleHash.Hasher<L, H>,
                                               defs: Defs, roots: seq<nat>, stack: nat)
    returns (r: Option<MetadataMerkleizer<L, H>>, md: Metadata)
    requires RoundTrips(codec) && AllDefined(defs) && DistinctVariants(defs) && forall id :: id in roots ==> id in defs
    ensures md.defs == defs && md.stack == stack
    ensures Accessible(defs, roots, md.ids.Keys)
    ensures r.Some? <==> forall id :: id in md.ids ==> CanState(md, id)
    ensures r.Some? ==>
              && Numbers(md.ids, r.value.c.sorted) && StatesTypes(md, r.value.c.sorted, r.value.c.tree)
              && Rearranges(r.value.lookup, r.value.c.tree, r.value.c.perm) && InTreeOrder(r.value.lookup)
    ensures r.Some? ==>
              && fresh(r.value) && fresh(r.value.merkleizer) && r.value.merkleizer.hashTree == null
              && r.value.Valid() && r.value.c.md == md && r.value.compact == compact && r.value.codec == codec
              && forall id :: id in roots ==> IsRoot(r.value.c, id)
  {
    hide AllDefined, DistinctVariants, ConstructTypeDef, Leads, AllKept, RoundTrips, Lists, Rearranges, Ordered,
        DistinctLeaves, Accessible, CanState, StatesTypes, InTreeOrder;
    var ids, sorted := GetAccessibleTypes(defs, roots);
    md := Metadata(defs, ids, stack);
    var lookup;
    ghost var tree, perm;
    lookup, tree, perm := GetLookup(md, sorted);
    r := None;
    if lookup.Some? {
      ghost var c := Compilation(md, sorted, tree, lookup.value, perm);
      assert WellMade(c);
      var m := new MetadataMerkleizer(compact, codec, h, lookup.value, c);
      r := Some(m);
    }
  }
}
