# Proofs about polkadot-api

A Dafny 4.11 model of the algorithms in polkadot-api that have real state, recursion over cyclic data
or a round trip to complete, with proofs of what they are for. `dafny verify dfyconfig.toml` checks it.

## What is modelled

| area | modules | main results |
|---|---|---|
| Type graph (`metadata-builders`) | `LookupGraphs`, `Closures`, `Subgraphs`, `Tarjan`, `CyclicGroups` | the graph has exactly the mentioned edges, at both ends, and the nodes that occur; a subgraph is the weakly connected part of its id whatever was cached before; the components found are exactly the maximal mutually reachable sets, in an order in which edges lead back; merging them changes nothing; the cyclic groups are sorted so that each comes after those it reaches |
| Static compatibility (`metadata-compatibility`) | `TypeDefs`, `DoubleSets`, `CompatibilityPlan`, `ComparableTypes`, `StaticCompatible` | the optimistic memoised comparison computes the greatest solution of the level equations, for any two cyclic graphs and any settled cache, with the set of assumptions shared as in the source; two nodes reach a level if and only if a relation that is closed under the rules for their kinds relates them; a chain is identical to itself |
| Value compatibility | `ValueCompatible`, `TrimmedValues` | from the level "backwards compatible" on, every value of the origin type passes the run-time check; with the exact condition under which that holds; and what passes is a value of the type once what the type does not name is cut off, and nothing else passes |
| Merkleized metadata | `TypeTree`, `DecodeCollect`, `HeapTree`, `MerkleProof`, `MerkleHash`, `ProofDecoding` | the leaves state the definitions of exactly the accessible types; pruning and flattening keep their meaning, with the exact exception; the leaves of an emitted proof, in its order, suffice to read what the metadata says; the rotated traversal emits exactly the nodes that complete the proof; replaying it rebuilds the root of RFC-0078 (section "Building the Merkle Tree Root"), and with an injective hash nothing else does |
| JSON-RPC proxy | `ProxyState`, `Proxy`, `ProxyRuns` | over every run each request is answered at most once, and until the end is answered, queued or tracked, in one place only; the unstopped broadcasts are those that the events ask for, each under its token with the transaction of its request, and every connection is sent all of them; after a halt requests are queued in the order in which they were sent |
| Watching entries | `PinnedChain`, `StorageDiff`, `WatchEntries` | over every run, folding the emitted deltas from any emission on gives the storage of the block last emitted; going on along one chain emits every snapshot on the way |
| Transaction state | `TxState` | the stream completes only with a find in a finalized block; `bestBlocks$` is the linked way down to the finalized block; `finalized$` has no gap |
| Eager concatenation | `ConcatEager` | over every run the output is a prefix of the outputs in order, and everything once nothing is active |
| Code generation | `InlineTypes`, `Compressor`, `UsedTypes`, `EntryPoints`, `EntryValues` | inlining keeps the meaning of all declarations; the emitted decoder undoes the compression, with the exact exception; the used types are those of exactly the entry points, closed under reference, and merging points every reference at its checksum; a type definition takes the values that its lookup entry takes |
| Storage keys | `Hex`, `StorageKeys` | decoding an encoded key gives back what the key tells of the arguments; the key of the first arguments is the beginning of exactly the keys with these |

Code that updates state in place is modelled by classes and methods with loops; each is proved against
a function or relation on values, about which the lemmas then speak. JavaScript's 32-bit shift is written
out (`HeapTree`). Hashes, SCALE codecs, checksums, the order in which an object lists its keys and
`localeCompare` are parameters, with what is assumed of them stated in `requires` clauses: fixed length,
self-delimiting, injective, a key once.

## Where the code departs from what one would expect

- `HeapTree.AncestorTestWorksIff`: the ancestor test shifts by a 32-bit amount, so it is right about a
  target if and only if the number of the target is below 2^31 - 1. `MerkleProof.GetProofData` emits the
  right proof, and `MerkleHash.Merkleizer.GenerateProof` one that rebuilds the root from the leaves, if and
  only if this holds of all known leaves; otherwise the proof consists of the root itself.
- `ValueCompatible.SizedBinaryIsRefused`: a sized binary is statically compatible with an unsized one, but
  `isCompatible` refuses its hexadecimal values; `AcceptsExactlyIfBinariesAgree` says exactly when the
  promise holds.
- `TrimmedValues.PassesForATuple`: `isCompatible` indexes a tuple without asking for an array, so a text that is long
  enough passes for a tuple of texts, and bytes for a tuple of numbers; `AcceptedIffContains` says exactly what passes.
- `TypeTree.NoVariantIsVoid`: an enumeration without variants has no values, but is flattened to `void` and
  decoded from nothing. By `MeansTheSameIff` decoding departs from the metadata exactly where reading meets
  such a type and, read as `()`, the bytes are no error; `MeansTheSame` says that this never happens where no
  such type is led to.
- `Hex.OddIsMisread`: `fromHex` reads an odd number of digits without `0x` from the wrong place; by
  `OddWithoutPrefixIff` it is right if and only if the digits at places 0 and 2 agree.
- `Compressor.NumeralRun`, `InheritedRun`, `PunctuationRun`: a name that occurs once and reads as a number, or
  one that every JavaScript object inherits, such as `constructor`, does not survive the emitted decoder; and
  of two different trees whose keys read alike, because a name has `[`, `:` or `]`, the later one met is lost.
  `GenerateDescriptorValuesContent` says that all tables come back if and only if each name occurs more than
  once or does not read as a number, none is inherited, and no two different trees have one key; the last
  holds if the names that occur once are free of these characters.
- `ProxyState.AnswerWhileOffline`: an answer that is relayed while there is no connection upsets the balance
  of answers; `ProxyRuns.Run` allows only other messages then.

## Model

| member | source | states |
|---|---|---|
| Subgraphs.BuildLookupGraph | packages/metadata-builders/src/lookup-graph.ts:8-86 | `refs` are exactly the ids an entry mentions (the first entry of an id counts) and the ids a pointer stands for; `backRefs` mirror them; the nodes are exactly the places of the lookup, the ids given there and the ids mentioned, each kept with what the lookup gives for it |
| Subgraphs.EntryOfNode | packages/metadata-builders/src/lookup-graph.ts:15-84 | where ids stand for themselves, the entry kept with a node is that of its id, whichever branch added it |
| Subgraphs.WithEdgeOnce | packages/metadata-builders/src/lookup-graph.ts:15-29 | no edge is recorded twice at either end |
| Subgraphs.MentionsAreReferences | packages/metadata-builders/src/lookup-graph.ts:42-72 | the ids that an entry mentions are those to which its type definition refers, and the `u8` of binary data |
| Subgraphs.SubgraphCache.Walk | packages/metadata-builders/src/lookup-graph.ts:89-102 | adds the node and all that is connected with it, no more, and caches the shared result for exactly the added nodes |
| Subgraphs.SubgraphCache.GetSubgraph | packages/metadata-builders/src/lookup-graph.ts:104-114 | returns the smallest set around the id closed under edges in both directions, with the nodes of the graph, whatever earlier calls cached; cached parts stay right |
| Subgraphs.SamePart | packages/metadata-builders/src/lookup-graph.ts:94-101 | a connected part is the connected part of each of its nodes, which is what makes sharing it in the cache right |
| Tarjan.Search.StrongConnect | packages/metadata-builders/src/lookup-graph.ts:116-172 | one recursive visit keeps the numbering, the stack and the emitted components as Tarjan's invariant demands, for any set of nodes being visited |
| Tarjan.TopIsComponent | packages/metadata-builders/src/lookup-graph.ts:136-162 | when the low link equals the index, what is on the stack from the node up is a maximal set of mutually reachable nodes |
| Tarjan.LeaveByPop | packages/metadata-builders/src/lookup-graph.ts:151-162 | popping that component restores the invariant of the caller |
| Tarjan.GetStronglyConnectedComponents | packages/metadata-builders/src/lookup-graph.ts:116-172 | the result consists of strongly connected components, disjoint, containing every node, each after the components its edges lead to |
| LookupGraphs.PathCrossesBorder | packages/metadata-builders/src/lookup-graph.ts:3-6 | a path that leaves a set of nodes crosses its border on an edge |
| CyclicGroups.MergeSCCsWithCommonNodes | packages/metadata-builders/src/lookup-graph.ts:174-214 | the groups are the unions of the overlap-connected classes of cycles; every cycle is in one class |
| CyclicGroups.MergeOfDisjoint | packages/metadata-builders/src/lookup-graph.ts:174-214 | on disjoint cycles, such as components, merging returns its input |
| CyclicGroups.IsItsIndex | packages/metadata-builders/src/lookup-graph.ts:196-213 | representatives that increase and miss no index are the indices themselves |
| CyclicGroups.GetReachableNodes | packages/metadata-builders/src/checksum-builder.ts:202-216 | the nodes reachable from a group, exactly |
| CyclicGroups.GroupSorter.DependentsFirst | packages/metadata-builders/src/checksum-builder.ts:218-228 | places a group after all groups it reaches; terminates since those reach fewer groups |
| CyclicGroups.SortCyclicGroups | packages/metadata-builders/src/checksum-builder.ts:201-232 | a permutation of the groups in which each comes after every other group it can reach |
| CyclicGroups.CycleFilter | packages/metadata-builders/src/checksum-builder.ts:324-327 | the filter keeps a component if and only if its nodes are on a cycle |
| CyclicGroups.CyclicGroupsInOrder | packages/metadata-builders/src/checksum-builder.ts:321-333 | the whole pipeline: every node on a cycle is in a kept group or its component is cached, and the groups come in order |
| DoubleSets.DoubleSet.Has | packages/metadata-compatibility/src/doubleSet.ts:1-37 | membership of a pair in the contents |
| DoubleSets.DoubleSet.Values | packages/metadata-compatibility/src/doubleSet.ts:1-37 | lists exactly the contents |
| CompatibilityPlan.StrictThreshold | packages/metadata-compatibility/src/isStaticCompatible.ts:355-376 | a strict merge reaches a level if and only if all its items do |
| CompatibilityPlan.PlanThreshold | packages/metadata-compatibility/src/isStaticCompatible.ts:151-403 | every combinator of the level equations commutes with thresholds |
| CompatibilityPlan.Discharge | packages/metadata-compatibility/src/isStaticCompatible.ts:36-66 | an assumption about a pair may be dropped once the pair's own equation holds under it: the open question of the source |
| CompatibilityPlan.GreatestIsSolution | packages/metadata-compatibility/src/isStaticCompatible.ts:151-322 | the greatest levels satisfy the equations at every pair |
| CompatibilityPlan.GreatestIsGreatest | packages/metadata-compatibility/src/isStaticCompatible.ts:151-322 | no assignment that the equations support exceeds them |
| TypeDefs.LastIsOne | packages/metadata-compatibility/src/isStaticCompatible.ts:282 | an object made from entries holds under each key the value of the last entry with that key, and no other keys |
| ComparableTypes.PlanIsAgreement | packages/metadata-compatibility/src/isStaticCompatible.ts:184-322 | at every level, the comparisons that the switch makes for two nodes ask for what makes the nodes agree by their kinds: the same terminal, lengths that fit, related fields or else optional ones, items in number, variants by name (some of them at the lowest level, all above), both sides of a result, options on either side |
| ComparableTypes.GreatestIsRelated | packages/metadata-compatibility/src/isStaticCompatible.ts:151-322 | a pair reaches a level if and only if some relation that is closed under that agreement relates it |
| ComparableTypes.SameChainIsIdentical | packages/metadata-compatibility/src/isStaticCompatible.ts:184-322 | a chain compared with itself is identical at every node, cycles included, if no struct repeats a field and no enum a variant |
| StaticCompatible.Comparer.IsStaticCompatible | packages/metadata-compatibility/src/isStaticCompatible.ts:83-149 | answers under the assumptions it reports, keeps the cache settled and the pending pairs pending, for any order of cached, assumed and new pairs; a missing destination is backwards compatible, or identical if the origin is missing too, and a missing origin is only compatible with an option |
| StaticCompatible.Comparer.StrictMerge | packages/metadata-compatibility/src/isStaticCompatible.ts:355-376 | the merged answer is right under the merged assumptions, also when it stops early |
| StaticCompatible.Comparer.MergeResults | packages/metadata-compatibility/src/isStaticCompatible.ts:378-403 | the lenient merge of items, some of them compared before, is right under the merged assumptions |
| StaticCompatible.Comparer.GetIsStaticCompatible | packages/metadata-compatibility/src/isStaticCompatible.ts:151-322 | at each level, under the assumptions it reports: answers with that level or a better one if and only if the two nodes agree by their kinds given the pairs that reach it |
| StaticCompatible.AnswerIsFinal | packages/metadata-compatibility/src/isStaticCompatible.ts:120-148 | an answer without assumptions, or one that is incompatible, is the greatest level and may be cached |
| StaticCompatible.CompareTypes | packages/metadata-compatibility/src/isStaticCompatible.ts:83-149 | terminates with the greatest level, which is at least a given one if and only if a closed relation at that level relates the two nodes, for any cache whose entries are greatest levels; leaves such a cache |
| ValueCompatible.Accepts | packages/metadata-compatibility/src/isCompatible.ts:7-97 | a value of the origin type, of any depth, passes the check against any pair in a sound set, given fuel for its depth |
| ValueCompatible.InhabitsMore | packages/metadata-compatibility/src/isCompatible.ts:7-97 | a value that inhabits a type to a depth inhabits it to every greater one |
| ValueCompatible.BackwardsCompatibleAccepts | packages/metadata-compatibility/src/isStaticCompatible.ts:184-321 | at the level backwards compatible or better, every finite value strictly of the origin type passes `isCompatible` against the destination, if no value comes to a sized binary where an unsized one is expected |
| ValueCompatible.AcceptsExactlyIfBinariesAgree | packages/metadata-compatibility/src/isStaticCompatible.ts:430-440 | and it does so if and only if no value comes to a sized binary where an unsized one is expected: over comparisons of parts that values can have, leaving out arrays of length 0, types without values and variants hidden by a later one |
| ValueCompatible.SizedBinaryIsRefused | packages/metadata-compatibility/src/isCompatible.ts:19-40 | a binary of 32 bytes is backwards compatible with an unsized one, and 32 zero bytes in hexadecimal are refused |
| TrimmedValues.TerminalKinds | packages/metadata-compatibility/src/isCompatible.ts:20-41 | a terminal type takes the values whose JavaScript type has its name, bit sequences a length with bytes, and void anything |
| TrimmedValues.AcceptedContains | packages/metadata-compatibility/src/isCompatible.ts:7-97 | what passes the check, without the keys of structs and the items of arrays and tuples that the type does not name, is a value of the type: no field missing, no tag unknown, no array too short, every terminal of its kind, every sized binary a text that starts with 0x |
| TrimmedValues.AcceptedIffContains | packages/metadata-compatibility/src/isCompatible.ts:7-97 | where no struct repeats a field, a value passes the check if and only if so trimmed it is a value of the type |
| TrimmedValues.ThrowsIff | packages/metadata-compatibility/src/isCompatible.ts:42-96 | the check throws if and only if, before anything fails, a result type is offered what is no object |
| TrimmedValues.PassesForATuple | packages/metadata-compatibility/src/isCompatible.ts:79-84 | any text of at least that many characters passes for a tuple of texts, and bytes for a tuple of numbers |
| TypeTree.GetAccessibleTypes | packages/merkleize-metadata/src/get-accessible-types.ts:4-61 | the types with content that the roots lead to, by what definitions mention, are collected, the smallest such set, and numbered densely in the order of their ids; primitives, compacts and types without content are not; terminates on cycles |
| TypeTree.Collector.CollectTypesFromId | packages/merkleize-metadata/src/get-accessible-types.ts:10-48 | adds a type with all it leads to and nothing else |
| TypeTree.GetLookup | packages/merkleize-metadata/src/get-lookup.ts:91-118 | the leaves state the definitions of the accessible types: one for each variant and one for any other type, with references to the very types referred to; they are sorted by type and variant; two types never share an id; fails if and only if some type has no such leaves: a compact of no unsigned primitive, a bit sequence of no such store type or order |
| TypeTree.PrimitiveFound | packages/merkleize-metadata/src/main.ts:124-141 | a primitive is found for a type if and only if wrappers of one type lead to that very primitive within the depth of the stack |
| TypeTree.GivenRefersTo | packages/merkleize-metadata/src/main.ts:143-158 | the reference given for a type is the one to that type: a primitive by itself, a compact by the unsigned primitive that its wrappers lead to or void for nothing, any other type by its number or, without one, void |
| TypeTree.GivenStatesType | packages/merkleize-metadata/src/get-lookup.ts:10-89 | the leaves given for a type are those that state its definition: fields, items, length, variant indexes, and for bit sequences the bytes of the store type and the bit order |
| TypeTree.ListedSole | packages/merkleize-metadata/src/get-lookup.ts:111-117 | only enumerations have several leaves, so the sort's error cannot occur |
| TypeTree.ReferencesResolve | packages/merkleize-metadata/src/main.ts:143-158 | every `perId` reference is to a type that has a leaf |
| TypeTree.SameSelection | packages/merkleize-metadata/src/decode-and-collect.ts:24-40 | the leaves of an enumeration, in any order, select the variant that the metadata selects |
| TypeTree.MeansTheSame | packages/merkleize-metadata/src/get-lookup.ts:10-89 | for types that lead to no enumeration without variants, decoding by the flattened, pruned leaves reads the same bytes as the metadata definitions, fails where they fail and rejects every bit sequence, at every nesting |
| TypeTree.MeansTheSameIff | packages/merkleize-metadata/src/get-lookup.ts:10-89 | for all types: decoding agrees with the metadata if and only if it is not so that reading meets an enumeration without variants and yet, with these read as `()`, succeeds or goes too deep |
| TypeTree.DecodesAllLeniently | packages/merkleize-metadata/src/get-lookup.ts:10-89 | for all types: decoding is the reading in which such an enumeration stands for `()`, in bytes, failures and depth |
| TypeTree.NoVariantIsVoid | packages/merkleize-metadata/src/main.ts:143-158 | an enumeration without variants is referred to as `void` and decoded from nothing, though the metadata gives it no values |
| TypeTree.FailsAllTheSame | packages/merkleize-metadata/src/decode-and-collect.ts:54-57 | such an enumeration before a byte that is missing: met by the metadata, and yet decoding fails as it should, so that meeting one is not enough to depart |
| TypeTree.LookupIsDistinct | packages/merkleize-metadata/src/get-lookup.ts:104-118 | no two leaves of the lookup are of the same type and variant |
| TypeTree.ProofReadsMetadata | packages/merkleize-metadata/src/main.ts:235-246 | the collected leaves by themselves, in any order, read what the metadata says, with enumerations without variants read strictly or as `()`, and are all taken |
| DecodeCollect.Decoder.DecodeOne | packages/merkleize-metadata/src/decode-and-collect.ts:47-110 | consumes the input and collects leaves as the decoding function says, with its errors |
| DecodeCollect.SelectIs | packages/merkleize-metadata/src/decode-and-collect.ts:72-80 | the leaf selected is the first of its group with the index, or there is none |
| DecodeCollect.WidthHolds | packages/merkleize-metadata/src/decode-and-collect.ts:24-39 | as many bytes are read for a primitive as hold just its values |
| DecodeCollect.SkipsValue | packages/merkleize-metadata/src/decode-and-collect.ts:24-45 | reading a primitive ends where its value ends, a text after the length that comes before it |
| DecodeCollect.HeadRestricted | packages/merkleize-metadata/src/decode-and-collect.ts:63-109 | the head of a value reads the same from a proof that has the leaves it takes, in an order that keeps leaves that are alike in theirs |
| DecodeCollect.DecodeRestricted | packages/merkleize-metadata/src/decode-and-collect.ts:47-110 | decoding with fewer leaves, if they include those taken and keep the order of leaves that are alike, consumes the same bytes and takes the same leaves |
| DecodeCollect.ProofSuffices | packages/merkleize-metadata/src/decode-and-collect.ts:112-135 | with exactly the collected leaves, in such an order, decoding succeeds, consumes the same bytes and takes all of them |
| DecodeCollect.AnyOrderKeeps | packages/merkleize-metadata/src/proof.ts:14-23 | where no two leaves are alike any order will do, such as the rotated one of a proof |
| DecodeCollect.DecodeAndCollectKnownLeafs | packages/merkleize-metadata/src/decode-and-collect.ts:112-135 | returns the taken leaves in increasing order; decoding again with these alone gives the same rest and takes them all |
| HeapTree.IsAncestorExact | packages/merkleize-metadata/src/proof.ts:1-3 | with the 32-bit shift, the test is exactly "at or below" at every node for targets under 2^31 - 1, also where the shift count is negative |
| HeapTree.AncestorTestWorksIff | packages/merkleize-metadata/src/proof.ts:1-3 | the test is right about a target at every node if and only if the number of the target is below 2^31 - 1 |
| HeapTree.ShiftWraps | packages/merkleize-metadata/src/proof.ts:2-3 | a negative count shifts by the count plus 32 |
| HeapTree.AncestorByDivision | packages/merkleize-metadata/src/proof.ts:2-3 | dividing by a power of two climbs to the ancestor on that level |
| HeapTree.UnderSon | packages/merkleize-metadata/src/proof.ts:46-48 | what is strictly below a node is below one of its sons |
| MerkleProof.RotationOrdered | packages/merkleize-metadata/src/proof.ts:14-23 | moving the deepest level to the front puts the known leaves in left-to-right order |
| MerkleProof.KnownBelowOrdered | packages/merkleize-metadata/src/proof.ts:25-50 | the known leaves below a node, left sons first, are in that order |
| MerkleProof.Traversal.Traverse | packages/merkleize-metadata/src/proof.ts:25-49 | consumes exactly the known leaves below the node and emits exactly the proof nodes there, if the known leaves are within reach of the ancestor test; otherwise stops where the test first fails |
| MerkleProof.GetProofData | packages/merkleize-metadata/src/proof.ts:5-57 | the indices are the known leaves from left to right, each beside its leaf; the proof indices are those of the maximal subtrees without a known leaf if and only if all known node numbers are below 2^31 - 1, and the root alone otherwise |
| MerkleProof.ProofPartitions | packages/merkleize-metadata/src/proof.ts:25-50 | every leaf is known or below exactly one proof node |
| MerkleProof.NoSiblings | packages/merkleize-metadata/src/proof.ts:25-50 | no two proof nodes are siblings if some leaf is known |
| MerkleHash.DequeRootOfFrontier | packages/merkleize-metadata/src/main.ts:181-199 | folding any frontier of the heap as a deque gives the hash of its root |
| MerkleHash.RootIsDequeRoot | packages/merkleize-metadata/src/main.ts:181-199 | the root of the heap-shaped array is that of RFC-0078: pop two, prepend the parent |
| MerkleHash.Merkleizer.BuildTree | packages/merkleize-metadata/src/main.ts:184-196 | the two loops fill the array with the hash of every node |
| MerkleHash.Merkleizer.GetHashTree | packages/merkleize-metadata/src/main.ts:181-199 | the memoised tree is that array, and is made once |
| MerkleHash.ReplayAt | packages/merkleize-metadata/src/proof.ts:25-50 | replaying the traversal at any node consumes its leaves and proofs and gives its hash; if the hash is injective and the result is that hash, they were the true ones |
| MerkleHash.ProofRebuildsRoot | packages/merkleize-metadata/src/main.ts:217-233 | replaying with the leaves, indices and proof hashes consumes everything and rebuilds the root |
| MerkleHash.RootBindsLeaves | packages/merkleize-metadata/src/main.ts:217-233 | with an injective hash only the true leaves and hashes rebuild the root at those positions |
| MerkleHash.Merkleizer.GenerateProof | packages/merkleize-metadata/src/main.ts:217-233 | the generated proof is for the asked leaves, in the rotated order; replaying it rebuilds the root and uses up everything if and only if their node numbers are below 2^31 - 1 |
| MerkleHash.AllAncestorTestsWorkIff | packages/merkleize-metadata/src/proof.ts:1-3 | the ancestor test is right for all nodes of a tree if and only if it has at most 2^30 leaves |
| ProofDecoding.OrderOfProof | packages/merkleize-metadata/src/proof.ts:9-23 | the emitted indices list the positions of the asked leaves, each once, in the order of the proof |
| ProofDecoding.ProofIsRead | packages/merkleize-metadata/src/main.ts:217-246 | a verifier who only has the emitted leaves, in the order of the proof, reads with them what the metadata says, strictly or not, and takes every one of them |
| ProofDecoding.MetadataMerkleizer.GetProof | packages/merkleize-metadata/src/main.ts:217-246 | for every payload the call that makes a proof succeeds, fails or gives up as reading with enumerations without variants as `()` does, which is reading by the metadata unless that meets one; the leaves of its proof read the payload and are all taken; the proof rebuilds the root |
| ProofDecoding.MerkleizeMetadata | packages/merkleize-metadata/src/main.ts:124-178 | the merkleizer of the types that the roots lead to exists if and only if each of them has leaves; its leaves state these types and are in order |
| ProxyState.Landed | packages/json-rpc/json-rpc-provider-proxy/src/get-proxy.ts:71-93 | an upstream answer to a broadcast in flight makes its token active, or stops it if the broadcast was stopped meanwhile |
| ProxyState.StopHandled | packages/json-rpc/json-rpc-provider-proxy/src/get-proxy.ts:124-149 | a stop is answered, and passed on if there is a token; broadcasts keep one fate each |
| ProxyState.BroadcastSent | packages/json-rpc/json-rpc-provider-proxy/src/get-proxy.ts:151-173 | a broadcast is answered with a new token and sent once |
| ProxyState.Relayed | packages/json-rpc/json-rpc-provider-proxy/src/get-proxy.ts:95-110 | an answer to a tracked request is handed over and the request forgotten; nothing is lost or doubled |
| ProxyState.Halted | packages/json-rpc/json-rpc-provider-proxy/src/get-proxy.ts:216-226 | losing the connection keeps the broadcasts and their transactions, without tokens, and puts all tracked requests in hand |
| ProxyState.IdleKeeps | packages/json-rpc/json-rpc-provider-proxy/src/get-proxy.ts:217-221 | the broadcasts keep their transactions and lose their tokens |
| ProxyState.ResendStep | packages/json-rpc/json-rpc-provider-proxy/src/get-proxy.ts:266-278 | one more broadcast is in flight under a new id |
| ProxyState.QueuedFirst | packages/json-rpc/json-rpc-provider-proxy/src/get-proxy.ts:279 | the first of the queued requests and the rest make up the queue |
| ProxyState.ExactlyOnePlace | packages/json-rpc/json-rpc-provider-proxy/src/get-proxy.ts:66-280 | what the invariant means for one id: at most one answer, and while not done either an answer, one place in the queue or an entry among the tracked |
| ProxyState.AnswerWhileOffline | packages/json-rpc/json-rpc-provider-proxy/src/get-proxy.ts:107-109 | an answer relayed while connecting, whatever its id, breaks the balance of requests and answers |
| Proxy.Proxy.Process | packages/json-rpc/json-rpc-provider-proxy/src/get-proxy.ts:112-199 | what the proxy keeps, answers and sends for every kind of request in every state; a sent request is tracked as a follow, as an operation on a chain or as any other by what it asks; the tracked requests stay in the order in which they were sent |
| Proxy.Proxy.Send | packages/json-rpc/json-rpc-provider-proxy/src/get-proxy.ts:112-199 | the same for a request of the consumer under a new id |
| Proxy.Proxy.OnMsgFromProvider | packages/json-rpc/json-rpc-provider-proxy/src/get-proxy.ts:66-110 | which messages reach the consumer and what they change; answers to unknown ids are dropped |
| Proxy.Proxy.Connect | packages/json-rpc/json-rpc-provider-proxy/src/get-proxy.ts:209-280 | fails unless connecting; sends every unstopped broadcast once and then what was queued, in order, which is then the order of the tracked requests |
| Proxy.Proxy.Halt | packages/json-rpc/json-rpc-provider-proxy/src/get-proxy.ts:214-257 | every followed chain is stopped once, every operation fails once, every other tracked request is queued once; operations fail and requests are queued in the order in which they were sent on the connection; the same broadcasts with the same transactions are kept, without tokens |
| Proxy.EachGivenBack | packages/json-rpc/json-rpc-provider-proxy/src/get-proxy.ts:246-255 | going through the tracked requests in order fails exactly the operations and queues exactly the others, each once |
| Proxy.SentNew | packages/json-rpc/json-rpc-provider-proxy/src/get-proxy.ts:184-200 | a request that is sent and tracked comes last in the order of sending |
| Proxy.SentAnswered | packages/json-rpc/json-rpc-provider-proxy/src/get-proxy.ts:94-100 | an answered request leaves the others in the order of sending |
| Proxy.Proxy.Disconnect | packages/json-rpc/json-rpc-provider-proxy/src/get-proxy.ts:203-208 | ends the protocol, with at most one answer given to any request |
| ProxyRuns.Run | packages/json-rpc/json-rpc-provider-proxy/src/get-proxy.ts:54-282 | over every run with distinct ids, the consumer's own, and timely answers: each request is answered at most once and until the end is answered, queued or tracked; until the consumer leaves, the broadcasts are those that it asked for and did not stop since, each under the token that it was told for that request and with its transaction, and on a connection each was sent |
| ProxyRuns.Step | packages/json-rpc/json-rpc-provider-proxy/src/get-proxy.ts:66-280 | one event keeps what the past says of the broadcasts, and makes, loses or ends the connection as it says |
| ProxyRuns.HistoryAsk | packages/json-rpc/json-rpc-provider-proxy/src/get-proxy.ts:152-173 | a broadcast adds exactly its own transaction, under the new token |
| ProxyRuns.HistoryStop | packages/json-rpc/json-rpc-provider-proxy/src/get-proxy.ts:124-149 | a stop ends exactly the broadcast with the token, whatever its request was |
| ProxyRuns.AskedBefore | packages/json-rpc/json-rpc-provider-proxy/src/get-proxy.ts:112-113 | the ids asked in the beginning of a run are among those asked in all of it |
| StorageDiff.GetDiff | packages/client/src/watch-entries.ts:61-90 | upserts exactly the new or changed entries in order, deletes exactly the missing ones, and keeps the decoded form of every other |
| StorageDiff.ChangedHas | packages/client/src/watch-entries.ts:72-77 | an entry is upserted if and only if it is current and not in the previous listing with that value |
| StorageDiff.DiffApplies | packages/client/src/watch-entries.ts:61-90 | folding the difference of two listings takes one storage to the other |
| StorageDiff.PutAll | packages/client/src/watch-entries.ts:323-325 | the first emission, taken as all upserted, gives the whole storage |
| WatchEntries.FindPrevious | packages/client/src/watch-entries.ts:92-108 | the nearest known block on the way up over pinned blocks, or none |
| WatchEntries.GetNextMemoryBlock | packages/client/src/watch-entries.ts:129-184 | the snapshot shows the storage of its block and its deltas lead there from the previous one; null deltas if and only if the root hash is the same |
| WatchEntries.MemoryBlocks.Prune | packages/client/src/watch-entries.ts:279-283 | forgets exactly the snapshots before a height; the finalized one stays |
| WatchEntries.Watcher.Update | packages/client/src/watch-entries.ts:244-302 | emits nothing if the followed snapshot is unchanged or missing; otherwise, if links within the memory lead back from it to the very one last shown, exactly the snapshots on the way, oldest first, and if not exactly one, which leads from the last block to this one; the finalized watcher then forgets exactly what is below the way |
| WatchEntries.WayFound | packages/client/src/watch-entries.ts:267-286 | going back by links over everything above the last shown block ends at it, over the one way there is, if any way leads there |
| WatchEntries.Watch.Begin | packages/client/src/watch-entries.ts:201-228 | what is fetched next: the next block after its nearest known ancestor, or the finalized one to start over |
| WatchEntries.Watch.Complete | packages/client/src/watch-entries.ts:213-236 | the new snapshot is added to the memory it was begun for, or starts a new one |
| WatchEntries.FoldIsStorage | packages/client/src/watch-entries.ts:323-335 | folding the deltas from any emission on gives the storage of the last block emitted |
| WatchEntries.Run | packages/client/src/watch-entries.ts:186-302 | the same for both watchers after every run of best, finalized, re-org, prune, abort and start-over steps |
| PinnedChain.ClimbDown | packages/client/src/watch-entries.ts:98-101 | every step up to a parent is one number down |
| TxState.FinalizedIff | packages/client/src/tx/submit-fns.ts:63-65 | comparing numbers decides whether the analyzed block is the finalized one or above it |
| TxState.TxTracker.FindAnalyzed | packages/client/src/tx/submit-fns.ts:49-61 | the nearest analyzed block above the best one, with its own number |
| TxState.TxTracker.OnPinned | packages/client/src/tx/submit-fns.ts:99-103 | what is emitted and whether the stream ends, by the nearest analyzed block |
| TxState.TxTracker.OnAnalyzed | packages/client/src/tx/submit-fns.ts:111-114 | the same after a block is analyzed |
| TxState.Run | packages/client/src/tx/submit-fns.ts:31-122 | over every run, the stream completes only after a find, in the finalized block or one above it, as its last emission; a loss is only emitted directly after a find |
| TxState.BestBlocks | packages/observable-client/src/chainHead/chainHead.ts:271-294 | the list starts at the best block, is linked by parents and ends at the finalized one |
| TxState.NewlyFinalized | packages/observable-client/src/chainHead/chainHead.ts:244-263 | the list ends at the finalized block and goes on from the last finalized one without a gap |
| ConcatEager.ConcatMapEager.SourceNext | packages/observable-client/src/utils/concatMapEager.ts:73-82 | keeps the invariant: order, buffers, slots and queue; subscribes to exactly the streams for which a slot is free, also when they emit or end at once |
| ConcatEager.ConcatMapEager.InnerNext | packages/observable-client/src/utils/concatMapEager.ts:38-44 | the value reaches the observer or the buffer of its stream |
| ConcatEager.ConcatMapEager.InnerComplete | packages/observable-client/src/utils/concatMapEager.ts:45-60 | flushes what is next in order and fills the free slots |
| ConcatEager.ConcatMapEager.OutputIsPrefix | packages/observable-client/src/utils/concatMapEager.ts:15-81 | the output is a prefix of the outputs in order |
| ConcatEager.ConcatMapEager.EverythingDelivered | packages/observable-client/src/utils/concatMapEager.ts:45-60 | once no stream is active, everything was delivered in order and no buffer is left |
| ConcatEager.EmittedIs | packages/observable-client/src/utils/concatMapEager.ts:27-64 | in every run a stream emits what it has at once and then its own values, in the order of the run |
| ConcatEager.Run | packages/observable-client/src/utils/concatMapEager.ts:73-82 | after every run of the source and the inner streams, in whatever order, the subscribed streams are those of a plain model of the slots, and the output is a prefix of their outputs in order, and all of them once none is active |
| InlineTypes.RefsOfReplace | packages/codegen/src/generate-types.ts:48-51 | inlining replaces the uses of a declaration by the uses of what it stands for |
| InlineTypes.EvalOfReplace | packages/codegen/src/generate-types.ts:48-51 | a type means the same after inlining, in every model of the declaration |
| InlineTypes.InlineRestricts | packages/codegen/src/generate-types.ts:39-54 | a model of the declarations before is one of those after |
| InlineTypes.InlineExtends | packages/codegen/src/generate-types.ts:39-54 | a model of the declarations after extends to one of those before |
| InlineTypes.RemoveStep | packages/codegen/src/generate-types.ts:32-55 | the target of an inlining still stands and is the only user |
| InlineTypes.InlineKeepsNames | packages/codegen/src/generate-types.ts:44-46 | an enumeration is anonymous only where it is all of a declaration, also after inlining |
| InlineTypes.Declarations.FindSingleUses | packages/codegen/src/generate-types.ts:11-30 | finds the users of every declaration and which have one user and are not imported |
| InlineTypes.Declarations.OptimizeVariables | packages/codegen/src/generate-types.ts:7-58 | terminates; deletes only declarations with one user that are not imported, leaves such a one only where it uses another that is left, keeps the models, and inlines no anonymous enumeration |
| Compressor.KeyRoundTripIff | packages/codegen/src/generate-multiple-descriptors.ts:351-362 | an encoded name decodes to itself if and only if it has a token, or neither reads as a number nor is inherited by every object |
| Compressor.TreeKeysDiffer | packages/codegen/src/generate-multiple-descriptors.ts:296-303 | trees with the same key are the same |
| Compressor.JoinsDiffer | packages/codegen/src/generate-multiple-descriptors.ts:298-303 | the concatenated entries determine the entries |
| Compressor.FindCommonTrees | packages/codegen/src/generate-multiple-descriptors.ts:309-344 | for all names: the common trees are, in the order of the walk, the first tree met with each key that occurs more than once; exactly the trees with such a key are replaced, each by the common tree with its key |
| Compressor.UsedTwice | packages/codegen/src/generate-multiple-descriptors.ts:312-320 | a tree key counts as used more than once if and only if two places have a tree with it |
| Compressor.UsagesArePlaces | packages/codegen/src/generate-multiple-descriptors.ts:271-278 | the usages of a name are the places where it is a key, at any level |
| Compressor.TableDecoded | packages/codegen/src/generate-multiple-descriptors.ts:351-382 | replacing the tokens and unwrapping to depth two gives the original table |
| Compressor.GenerateDescriptorValuesContent | packages/codegen/src/generate-multiple-descriptors.ts:268-382 | for all names: all tables come back from the emitted decoder if and only if each name occurs more than once or does not read as a number, none is inherited by every object, and no two different minified trees have one key, as is so where names that occur once are plain; given the last, this holds of each chain by itself; the tokens are exactly the names that occur more than once and are not inherited |
| Compressor.NumeralIsLost | packages/codegen/src/generate-multiple-descriptors.ts:356-360 | a table with a name that reads as a number and has no token comes back from nothing that the decoder is given |
| Compressor.InheritedIsLost | packages/codegen/src/generate-multiple-descriptors.ts:271-294 | nor does a table with a name that every object inherits, for which the count is NaN and an index is found |
| Compressor.ComesBackIff | packages/codegen/src/generate-multiple-descriptors.ts:351-382 | the same exact condition for one table and what it was compressed to |
| Compressor.NumeralRun | packages/codegen/src/generate-multiple-descriptors.ts:268-382 | compressing one chain with a storage entry "0" loses it |
| Compressor.InheritedRun | packages/codegen/src/generate-multiple-descriptors.ts:268-382 | compressing one chain with an item "constructor" loses it |
| Compressor.PunctuationRun | packages/codegen/src/generate-multiple-descriptors.ts:268-382 | compressing one chain with the pallets `{a: 1, b: 2}` and `{"a:1][b": 2}`, whose names are no numerals, loses one of them |
| Compressor.SameTreeKeys | packages/codegen/src/generate-multiple-descriptors.ts:296-303 | these two trees have the same key |
| Compressor.AllComeBackIff | packages/codegen/src/generate-multiple-descriptors.ts:309-382 | the exact condition for all chains and what they were compressed to |
| Compressor.DifferIfShared | packages/codegen/src/generate-multiple-descriptors.ts:325-341 | if every shared tree stands for what it replaced, then no two different trees have one key |
| Compressor.SharedIfBack | packages/codegen/src/generate-multiple-descriptors.ts:351-382 | if all tables come back, then every shared tree stands for what it replaced |
| UsedTypes.RefsOfMapped | packages/metadata-compatibility/src/typedef.ts:240-283 | mapping the references replaces exactly the references, each in its place |
| UsedTypes.MappedBack | packages/metadata-compatibility/src/typedef.ts:240-283 | mapping back by an inverse restores the node |
| EntryValues.SameValues | packages/metadata-compatibility/src/typedef.ts:122-238 | the type definition made for a lookup entry takes exactly the values that the entry takes, whatever the entries it refers to take |
| EntryValues.MappedTakes | packages/metadata-compatibility/src/typedef.ts:240-283 | with its references mapped it takes what it took, if the new numbers mean what the old ones did |
| EntryValues.RefsDecide | packages/metadata-compatibility/src/typedef.ts:240-283 | what it takes depends on the entries that it refers to and no others |
| UsedTypes.TypeCollector.AddTypeFromLookup | packages/codegen/src/get-used-types.ts:36-47 | terminates on cycles; collects a type with all it leads to and nothing else, each checksum once |
| UsedTypes.ReferenceClosed | packages/codegen/src/get-used-types.ts:36-54 | in the end every reference has a checksum under which a type is stored |
| UsedTypes.CollectTypes | packages/codegen/src/get-used-types.ts:36-54 | from given entry points: the stored types are closed under reference, come from the lookup under their checksums, and nothing is collected that no entry point leads to |
| EntryPoints.PalletPoints | packages/codegen/src/get-used-types.ts:56-98 | the entry points of a pallet are exactly those of its storage, constants, view functions and of the variants of its calls, events and errors; an error if and only if one of these types is neither void nor an enumeration |
| EntryPoints.PointInRange | packages/metadata-compatibility/src/entryPoint.ts:59-103 | entry points refer to types of the lookup only, if the metadata and the lookup do |
| EntryValues.StorageTakes | packages/metadata-compatibility/src/entryPoint.ts:59-76 | a storage entry takes its key, or anything if it is plain, and gives its value |
| EntryValues.ConstantTakes | packages/metadata-compatibility/src/entryPoint.ts:98-103 | a constant takes anything and gives its value |
| EntryValues.CallTakes | packages/metadata-compatibility/src/entryPoint.ts:78-88 | a view function or runtime call takes the list of its inputs and gives its output |
| EntryValues.VariantTakes | packages/metadata-compatibility/src/entryPoint.ts:90-96 | a call takes its variant, an event or error gives it, and the other side is void |
| EntryValues.EntryPointRefsDecide | packages/metadata-compatibility/src/entryPoint.ts:157-171 | what an entry point takes and gives depends on the types that it refers to and no others |
| EntryPoints.GetUsedTypes | packages/codegen/src/get-used-types.ts:27-109 | of a chain's metadata: fails if and only if some calls, events or errors are no enumeration; otherwise every entry point is kept under its checksum and no other, and the types are those these lead to, closed under reference, under their checksums |
| UsedTypes.MergeTypes | packages/codegen/src/generate-multiple-descriptors.ts:224-266 | every checksum once; every reference of a merged type or entry point is a valid index of the type with the checksum it had |
| Hex.ToHex | packages/utils/src/hex.ts:3-14 | two digits for every byte after the prefix |
| Hex.FromHex | packages/utils/src/hex.ts:41-57 | what is read from any text, of even or odd length, with a prefix or without |
| Hex.HexRoundTrip | packages/utils/src/hex.ts:3-57 | reading what was written gives the bytes back |
| Hex.OddWithPrefix | packages/utils/src/hex.ts:42-47 | an odd number of digits with the prefix reads as if a zero came first |
| Hex.OddWithoutPrefixIff | packages/utils/src/hex.ts:42-47 | without the prefix it does so if and only if the digits at places 0 and 2 agree |
| Hex.CaseDoesNotMatter | packages/utils/src/hex.ts:17-40 | digits are read in either case |
| Hex.PrefixIsTheX | packages/utils/src/hex.ts:43 | whatever comes before an x in the second place is taken for the prefix |
| Hex.OddIsMisread | packages/utils/src/hex.ts:42-47 | "123" and "0123" read differently |
| StorageKeys.Storage.Enc | packages/substrate-bindings/src/storage.ts:83-99 | the key is the text of the entry's prefix and the hashed arguments, of which the last may be left out; fails if and only if there are more than encoders |
| StorageKeys.HashedArgument | packages/substrate-bindings/src/storage.ts:19-27 | the hash of an argument comes first, by the function the hasher is named after and as long as the table says, and then the argument unless the hasher is opaque |
| StorageKeys.Storage.Dec | packages/substrate-bindings/src/storage.ts:54-81 | the errors, and the parts cut off the key one after the other |
| StorageKeys.CutOfArgs | packages/substrate-bindings/src/storage.ts:64-80 | cutting hashed arguments, whatever follows them, gives each transparent argument and the text of each opaque hash |
| StorageKeys.KeyRoundTrip | packages/substrate-bindings/src/storage.ts:54-99 | decoding an encoded key does the same, through the hexadecimal text |
| StorageKeys.PartialKeyIff | packages/substrate-bindings/src/storage.ts:83-99 | under transparent hashers the key of some first arguments is the beginning of exactly the keys with these first arguments |

## Left out

- Hash functions, SCALE codecs, checksums: parameters with stated properties; their implementations are not modelled.
- The `changes` and `path` reports of the static comparison, and the `deep` ordering of reports: only levels are modelled.
- `isStorageKeyCompatible`, non-string enum tags and keys inherited from `Object.prototype`: values are plain data.
- ValueCompatible.Accepts: the recursion of `isCompatible` is given fuel, and a type of options only that never ends is excluded, as there the source does not terminate.
- DecodeCollect.DecodeRestricted: decoding is given fuel for the nesting depth; for every fuel the two decodings agree, and running out stands for the stack overflow of the source.
- MerkleProof.GetProofData: trees of more than 2^31 leaves, whose nodes no JavaScript array holds, only with known leaves within reach of the ancestor test; `Math.log2` is taken to be exact on whole numbers.
- Compressor.GenerateDescriptorValuesContent: objects are maps; the order of their keys, and what objects inherit with its text as a key, are parameters.
- TypeTree.GetPrimitive: a cycle of wrappers under a compact ends at the depth of the stack, for any depth.
- WatchEntries.Run: an entry's decoded form is a term that names the runtime; that a re-org decodes shared entries anew in place is not modelled.
- ProxyRuns.Run: the transport delivers no answer while there is no connection and reports a loss only of a connection that was made; callbacks do not re-enter the proxy; stops for followed chains and broadcasts sent again are stated without their order; `withNumericIds`, which rewrites ids, is not part of this model.
- StaticCompatible.CompareTypes: which pairs get cached is not claimed, only that what is cached is right, since the shared assumption set only grows.
- Subgraphs.BuildLookupGraph: the lookup answers for every id; its exception for an id that it does not have is not modelled.
- The iterated and mirrored checksums of `checksum-builder.ts`: their meaning depends on hash coincidence.
- `resolveConflicts`, known types, documentation strings and the text of generated files: types are trees.
- The completion of `concatMapEager`, errors and teardown: they depend on the semantics of subscriptions.
- `getTxSuccessFromSystemEvents` and the rest of `chainHead.ts`: event filtering and stream composition.
- rxjs scheduling, timers, sockets, smoldot, signers, CLI, React builders and known-chains data.
