# Skip-graph overlay: a verified model

A Dafny model of the skip-graph node in this repository: its lookup table, its message handlers, the
concurrent link protocol, distributed search, the stage-1 join, the multi-level graph builder and the
bit and byte arithmetic underneath. The main results are about every run of the message-passing
system, every schedule of a join and every input of the builder.

`dafny verify dfyconfig.toml` checks the whole project.

## How the system is modelled

- `Identifiers`, `MembershipVectors`: byte strings, compared and scanned by the loops of the source.
  Above this layer an identifier is its big-endian value (`Directions.Id`); `Compare` is shown to be
  the order of these values and `ValueInjective` that nothing is lost.
- `Directions`: `Key(d, id)` is the position on the axis growing in direction `d`, so that left and
  right are one case.
- `LookupTables`, `BaseNodes`: classes that update arrays and the waiter map in place. Each method is
  proved against a function on values (`Decide`/`Settle`, `OnGetLink`, `OnSetLink`, `Taken`, ...).
- `Handlers`: the reaction of a node to a message as a function: a new table and at most one packet.
- `Overlay`: the state machine. A state is a map of nodes and a sequence of packets in flight; a step
  brings up a node, injects, delivers or loses a packet. Any packet may be delivered next. A handler's
  write and its send are one step, and a packet may stay in flight for any time, so interleavings of
  handlers on one node between write and send are covered. Packets for unknown nodes disappear.
  A search reads its levels under separate locks: `DeliverTorn` delivers a search request to a node
  that has seen, in each slot, any earlier entry of it. Since slots only tighten, this covers every
  interleaving of the reads with writes.
- `BackPointers`, `Progress`: honest runs. Requests are made by nodes for themselves, replies only by
  handlers, and no `SetLinkOp` is lost; everything else may be lost, and all may be reordered. The
  ordering, prefix, nonce and search-confinement results in `Overlay` need none of this and hold for
  arbitrary injected packets.
- `LevelLists`, `Linking`, `DistributedSearch`, `Join`: complete level lists, and what linking, search
  and the join do on them. A join is a sequence of round trips through the same state machine; the
  nonces, the introducer, the start level and every delivery schedule are universally quantified.
- `Drops`: exactly when a link request is dropped, over all honest runs.
- `Splits`: two concrete honest runs, with every round trip of the joins involved and no nonce used
  twice. One ends quiet but not reciprocal. In the other a link request of a joining node is dropped.
- `Builder`: the construction of the integration-test harness, as loops over an array of tables.

Node identifiers are unique: a node comes up only under an unused identifier.

The documentation comments in `base_node.rs` (lines 718-719) and section 4.1 of
`docs/protocol/concurrent-insert.md` say that no legitimate link request is ever dropped. The code
drops one: `Splits.QueryLinkMayBeDropped` is such a run. `Drops.NeverDroppedIff` says exactly which
requests are never dropped on any honest run: those whose first receiver passes the slot check. For
the second request of a join this is so if and only if no node linked in at the anchor between the
search answer and the neighbour query (`Drops.QueryLinkNeverDroppedIff`), which the joining node can
see from the answer it gets. The first request of a join is never dropped
(`Drops.SearchLinkNeverDropped`).

## Model

| member | source | states |
|---|---|---|
| `Identifiers.Compare` | src/core/model/identifier.rs:92-119 | the byte-wise comparison is the order of big-endian values; equal exactly on equal identifiers; `diffIndex` is the first differing byte, or 32 |
| `Identifiers.FirstDifferenceDecides` | src/core/model/identifier.rs:93-112 | among strings of one length the first differing byte decides the numeric order |
| `Identifiers.ValueInjective` | src/core/model/identifier.rs:173-188 | identifiers have equal value only if equal, so the order is total and antisymmetric on them |
| `Identifiers.ValueInRange` | src/core/model/identifier.rs:8-17 | 32 bytes stand for the numbers below 256^32, all bytes 255 for the largest |
| `Identifiers.FromBytes` | src/core/model/identifier.rs:125-137 | fails exactly above 32 bytes; otherwise left padding keeps the number and the bytes |
| `Identifiers.FromBytesKeepsOrder` | src/core/model/identifier.rs:122-137 | inputs of any two lengths compare as the numbers they spell |
| `MembershipVectors.CommonPrefixBit` | src/core/model/memvec.rs:87-111 | the nested byte and bit scan returns the length of the longest common bit prefix |
| `MembershipVectors.CommonPrefixIsLongest` | src/core/model/memvec.rs:79-86 | the vectors agree on that prefix and differ right after it |
| `MembershipVectors.PrefixInBytes` | src/core/model/memvec.rs:89-107 | on the bytes, read from the most significant bit: the bytes before the difference are equal, and in its byte exactly the upper n mod 8 bits are |
| `MembershipVectors.CommonPrefixSymmetric` | src/core/model/memvec.rs:87-111 | the prefix length does not depend on the order of the vectors |
| `MembershipVectors.CommonPrefixFull` | src/core/model/memvec.rs:87-111 | the length is 256 exactly for equal vectors |
| `MembershipVectors.CommonPrefixUltrametric` | src/core/model/memvec.rs:87-111 | cpb(a,c) is at least the smaller of cpb(a,b) and cpb(b,c) |
| `MembershipVectors.PrefixMatchEquivalence` | src/node/core.rs:288-290 | prefix match at a level is an equivalence, reflexive exactly up to 256 |
| `MembershipVectors.PrefixMatchRefines` | src/node/core.rs:288-290 | each level's lists refine the lists of the level below; level 0 is one list |
| `Directions.OppositeMirrors` | src/core/model/direction.rs:41-46 | right is upward and left downward; `opposite` is an involution without fixed point that reverses "lies beyond" |
| `LookupTables.PutChangesOneSlot` | src/core/lookup/array_lookup_table.rs:80-87 | writing a slot changes that slot and no other |
| `LookupTables.ArrayLookupTable.constructor` | src/core/lookup/array_lookup_table.rs:27-34 | a new table has 256 empty slots on each side |
| `LookupTables.ArrayLookupTable.UpdateEntry` | src/core/lookup/array_lookup_table.rs:65-97 | writes one slot and no other; an error for a level out of range |
| `LookupTables.ArrayLookupTable.RemoveEntry` | src/core/lookup/array_lookup_table.rs:100-133 | empties one slot and no other; an error for a level out of range |
| `LookupTables.ArrayLookupTable.GetEntry` | src/core/lookup/array_lookup_table.rs:139-167 | the slot named, or an error for a level out of range |
| `LookupTables.ArrayLookupTable.TryRelink` | src/core/lookup/array_lookup_table.rs:205-254 | the in-place compare-decide-write changes only its slot: consistent exactly on the claimant itself; forwarded to the old entry exactly if that lies strictly between; otherwise the claimant is written and the old entry reported as evicted |
| `LookupTables.ArrayLookupTable.TryLink` | src/core/lookup/array_lookup_table.rs:179-191 | the same write; reported as linked exactly if the candidate is then in the slot, otherwise the slot is unchanged and forwarded to |
| `LookupTables.SettleAllFindsClosest` | src/core/lookup/array_lookup_table.rs:227-243 | after any history of offers a slot holds the closest of its old entry and all offers; it is never emptied or loosened |
| `LookupTables.SettleAllOrderIrrelevant` | src/core/lookup/array_lookup_table.rs:192-204 | with one identity per identifier the final entry does not depend on the order or number of offers |
| `LookupTables.ArrayLookupTable.LeftNeighbors` | src/core/lookup/array_lookup_table.rs:257-267 | the loop returns the populated left slots with their levels, exactly and in order |
| `LookupTables.ArrayLookupTable.RightNeighbors` | src/core/lookup/array_lookup_table.rs:270-280 | the loop returns the populated right slots with their levels, exactly and in order |
| `LookupTables.ListingIsExact` | src/core/lookup/array_lookup_table.rs:257-280 | a listing names exactly the populated levels with their entries, once each, in ascending order |
| `LookupTables.ArrayLookupTable.FindMaxPopulatedLevel` | src/core/lookup/array_lookup_table.rs:284-290 | the downward scan returns the highest populated level |
| `LookupTables.MaxPopulatedLevel` | src/core/lookup/mod.rs:171-180 | none exactly on an empty table; otherwise populated there and empty above |
| `LookupTables.MaxPopulatedIsMaxOfListings` | src/core/lookup/mod.rs:171-180 | that level is the maximum over both neighbour listings |
| `LocalSearch.SelectIsOptimal` | src/node/core.rs:206-242 | the filter and minimum/maximum chain selects the admissible entry closest to the target over levels 0 to `level`; of several levels holding it the highest (Right) or lowest (Left) |
| `LocalSearch.SearchByIdIsOptimal` | src/node/core.rs:195-270 | fails exactly for a level out of range; answers with the optimum, or with itself at level 0 if nothing is admissible |
| `LocalSearch.MaxLevelSearchIsFullSearch` | src/node/core.rs:276-278 | a search from the node's own maximum level answers as one from level 255, termination level included |
| `Handlers.ReactKeepsTable` | src/node/base_node.rs:732-748 | any message with any contents keeps every entry on its side and in its prefix list, and only tightens slots |
| `Handlers.ReactKeepsNonce` | src/core/model/join.rs:5-8 | whatever a handler sends carries the nonce it received |
| `Handlers.SearchHop` | src/node/base_node.rs:547-586 | a relay is the same search and goes to the optimal entry over all levels up to its own, at that entry's level, so strictly nearer the target; an answer goes to the origin, names this node at level 0 and means nothing was admissible |
| `Handlers.MaxLevelReply` | src/node/base_node.rs:614-634 | the reply goes to the asker and names the highest populated level, 0 for an empty table |
| `Handlers.NeighborReply` | src/node/base_node.rs:660-682 | the reply goes to the asker and holds the slot asked for, at every level; nothing for a level out of range |
| `Handlers.HandleFailsExactly` | src/node/base_node.rs:855-870 | only unsupported events and reads of a level out of range fail |
| `Handlers.LinkHop` | src/node/base_node.rs:760-804 | a forwarded request is unchanged and goes strictly between this node and the candidate; an accepted one leaves the candidate in the slot and confirms the mirror slot |
| `Handlers.LinkHopStillBelongs` | src/node/base_node.rs:718-721 | the next hop serves the forwarded request too |
| `Waiters.RepliesMatchWaiters` | src/node/waiter.rs:20-32 | a reaction to a request keeps waiting for the same answer, or is one that resolves the parked waiter |
| `Waiters.OnlyItsOwnReplyResolves` | src/node/base_node.rs:507-536 | kind by kind, what resolves what: a waiter and its entry go exactly on a reply of its nonce and kind, for a link also its level and direction; on any other message the map stays |
| `Waiters.ResolvedAtMostOnce` | src/node/waiter.rs:6-33 | from a node without requests, over every run: no nonce is resolved twice, each only by a reply of its kind, and no entry is left without a guard |
| `Waiters.WaitersStaySound` | src/node/base_node.rs:507-536 | over every run an entry never outlives its guard, a request is resolved at most once and only by a reply of its nonce and kind, for links also level and direction |
| `Waiters.FirstMatchResolves` | src/node/base_node.rs:518-535 | mismatched replies and other requests leave a request waiting; its first matching reply resolves it and takes its entry only |
| `Waiters.RegisteredIsResolved` | src/node/waiter.rs:6-33 | a registered request is resolved by its first matching reply |
| `Waiters.ReleasedIsFinal` | src/node/waiter.rs:34-68 | a released request has no guard and no entry, and is never resolved later |
| `Waiters.GoneIsFinal` | src/node/waiter.rs:34-47 | once its entry is gone, by answer, timeout or cancellation, a request is never resolved again |
| `BaseNodes.BaseNode.constructor` | src/node/base_node.rs:47-76 | a new node has an empty table and no outstanding requests |
| `BaseNodes.BaseNode.ChecksOwnSlot` | src/node/base_node.rs:732-748 | the computed check is: a level below 256, the right side, and the level's membership prefix |
| `BaseNodes.BaseNode.TakeWaiter` | src/node/base_node.rs:507-536 | removes and returns the entry exactly if nonce and kind match, spelled out kind by kind; otherwise the map stays |
| `BaseNodes.BaseNode.DropGuard` | src/node/waiter.rs:56-68 | removes the nonce's entry and no other |
| `BaseNodes.BaseNode.SearchOwnTable` | src/node/core.rs:195-270 | reading entry by entry gives the local search of the table, its error for a level out of range included |
| `BaseNodes.BaseNode.HandleSearchByIdRequest` | src/node/base_node.rs:547-586 | relays to the optimal entry at its level, or answers the origin with itself at level 0; fails exactly for a level out of range |
| `BaseNodes.BaseNode.HandleGetMaxLevelRequest` | src/node/base_node.rs:614-634 | replies with the highest populated level, 0 for an empty table |
| `BaseNodes.BaseNode.HandleGetNeighborRequest` | src/node/base_node.rs:660-682 | replies with the slot asked for, or fails for a level out of range |
| `BaseNodes.BaseNode.HandleGetLinkRequest` | src/node/base_node.rs:760-804 | the in-place table and the packet sent are the link reaction |
| `BaseNodes.BaseNode.HandleSetLinkResponse` | src/node/base_node.rs:814-845 | the table is written whether or not a waiter matches, and the waiter is taken whether or not the table is written |
| `BaseNodes.BaseNode.ProcessIncomingEvent` | src/node/base_node.rs:855-870 | for every event the new table and packet are the reaction used by the overlay; only a matching reply changes the waiter map; unsupported events fail |
| `BaseNodes.BaseNode.StartSearch` | src/node/base_node.rs:95-121 | searching the own table first answers or relays exactly as sending the request to oneself would, to the optimal entry; a waiter is parked only when a request goes out |
| `BaseNodes.BaseNode.SendLinkRequest` | src/node/base_node.rs:324-357 | parks a waiter for the mirror slot and sends its own identity |
| `Overlay.EveryRunKeepsOrder` | src/node/base_node.rs:700-748 | on every run with arbitrary packets, losses and orders: entries stay on their side and in their prefix list, slots only tighten and are never emptied |
| `Overlay.ReachableSlotsOrdered` | docs/protocol/concurrent-insert.md:308-311 | the same, for each slot of each state reachable from the empty overlay |
| `Overlay.NoncesAreNotDuplicated` | src/core/model/join.rs:4-8 | on every run a nonce has at most as many packets in flight as were injected with it |
| `Overlay.SearchStaysConfined` | src/node/base_node.rs:571-577 | on every run, with any writes between its hops and between the reads of one hop, a search stays between start and target, never rises in level, and is answered only from that range |
| `Overlay.AnswersComeFromNodes` | src/node/base_node.rs:563-568 | on every run an answer to a search names a node of the overlay |
| `BackPointers.StepKeepsConsistent` | src/node/base_node.rs:760-845 | every honest step keeps order, real entries, sound packets and the back-pointer property |
| `BackPointers.BackPointersHold` | src/node/base_node.rs:760-845 | after any honest run, at any level: if v's slot holds x, then x's mirror slot holds some y from v up to but excluding x, or a `SetLinkOp` carrying v to x is in flight |
| `BackPointers.QuietAdjacentReciprocal` | src/node/base_node.rs:778-792 | with no confirmation in flight at the level, a pointer to an adjacent node of the level list is answered by a pointer back |
| `BackPointers.HalfCorrectIsAllCorrect` | src/node/base_node.rs:778-792 | if then every slot on one side of a level is the true neighbour, so is every slot on the other side |
| `Progress.ServedOnceServedAlways` | src/node/base_node.rs:718-748 | on every honest run a link request that passes the slot check once passes it at every later hop, stays between its start and its candidate, and is confirmed only from there |
| `Progress.LinkTerminates` | src/node/base_node.rs:793-801 | on every honest run with any other traffic, a link request is delivered at most as often as its distance to the candidate |
| `Progress.LinkNeverRevisits` | src/node/base_node.rs:793-801 | a forwarded link request never returns to a node it has left |
| `Progress.SearchTerminates` | src/node/base_node.rs:571-586 | on any run whatever, with arbitrary packets, new nodes, losses and reads between writes, a search makes at most as many hops as its distance to the target, and one |
| `Progress.SearchNeverRevisits` | src/node/base_node.rs:571-586 | a relayed search never returns to a node it has left, on any run |
| `Progress.ReactionIsLighter` | src/node/base_node.rs:793-801 | what a handler sends has a smaller weight, counted in nodes still ahead, than what it received |
| `Progress.DrainingIsBounded` | src/node/base_node.rs:793-801 | without new requests every honest run is at most as long as the potential it starts with |
| `Progress.QuiescenceIsReached` | src/node/base_node.rs:793-801 | from every reachable honest state delivering what is in flight empties the network |
| `LevelLists.InsertionStep` | src/node/base_node.rs:760-845 | while a node is linked into a complete list, any delivery advances exactly one of its two requests, the one whose packet it takes, and lowers an explicit measure |
| `LevelLists.InsertionAnswers` | src/node/base_node.rs:372-387 | on every schedule that leaves nothing in flight, each request has been answered to its sender by a reply that resolves its waiter |
| `LevelLists.InsertionLinks` | src/node/base_node.rs:778-792 | both requests served leave the complete list with the node inserted |
| `Linking.LinkFindsTrueNeighbor` | src/node/base_node.rs:773-802 | on a complete level list a request sent to any member on the near side ends at the true neighbour, the reply fills the mirror slot, and no other slot moves |
| `Linking.LinkingInserts` | src/node/base_node.rs:773-802 | two requests through any members, in every interleaving, insert the node into the doubly linked list and touch no other level |
| `Linking.LinkingIsAnswered` | src/node/base_node.rs:778-792 | each of the two requests has then been confirmed to the new node by a reply that resolves its waiter |
| `Linking.LinkingCompletes` | src/node/base_node.rs:773-802 | every schedule of the two requests ends: none exceeds an explicit budget, and each can be brought to its end |
| `Linking.AscendingLinksBuildList` | src/node/base_node.rs:773-802 | linking any number of nodes in ascending order through the smallest builds the doubly linked list |
| `DistributedSearch.SearchIsExact` | src/node/base_node.rs:547-586 | on every run over which level 0 stays complete, with any other traffic, every answer is the greatest member at or before the target (Right) or the smallest at or after it (Left), whatever the higher levels hold on their side |
| `DistributedSearch.SearchCompletes` | src/node/base_node.rs:547-586 | a search run alone reaches that answer and leaves the tables unchanged |
| `DistributedSearch.SearchAlone` | src/node/base_node.rs:190-233 | every schedule of a search run alone changes no table and can only produce the exact answer |
| `DistributedSearch.SearchAloneIsBounded` | src/node/base_node.rs:547-586 | every schedule of a search run alone ends within the distance to its target, and two |
| `DistributedSearch.HalfCorrectIsSearchable` | src/node/base_node.rs:778-792 | a quiet overlay whose level-0 slots are right on one side is searched exactly in both directions |
| `Join.SearchPhaseIsExact` | src/node/base_node.rs:430-457 | the join's search finds the closest member not past the joining node |
| `Join.JoinInserts` | src/node/base_node.rs:424-494 | a join run alone succeeds, each of its link requests answered by a reply that resolves its waiter, and is insertion into the sorted doubly linked level-0 list, for every introducer, start level, order and schedule |
| `Join.JoinCollisionChangesNothing` | src/node/base_node.rs:435-462 | a join under an identifier already held fails and changes no table |
| `Join.JoinSearchEnds` | src/node/base_node.rs:441-451 | no schedule of the join's search exceeds its distance to the introducer, and two |
| `Join.JoinLinksEnd` | src/node/base_node.rs:470-491 | no schedule of the join's link requests exceeds an explicit budget, and each can be brought to its end |
| `Join.JoinCompletes` | src/node/base_node.rs:424-494 | every such join has a run that ends in success |
| `Join.JoinsBuildList` | src/node/base_node.rs:424-494 | any sequence of joins from one node, in any order and through any members, builds the list of all of them |
| `Join.LinkedIsUnique` | docs/protocol/concurrent-insert.md:130-212 | the finished list depends on its members only, not on the history |
| `Splits.SplitIsReachable` | docs/protocol/concurrent-insert.md:395-433 | an honest run of three joins, all packets delivered and no nonce used twice, that ends with the four pointers of the documented split |
| `Drops.NeverDroppedIff` | src/node/base_node.rs:718-748 | a node's link request has, on every honest run and at every hop, a receiver that confirms or forwards it, if and only if its first receiver is up and passes the slot check |
| `Drops.HoldsUpToIffLinkedIn` | src/node/base_node.rs:760-845 | on every run, a slot that held nothing up to u comes to hold such an entry exactly if a delivered link packet installs one |
| `Drops.QueryLinkNeverDroppedIff` | src/node/base_node.rs:465-484 | the request to the queried neighbour is never dropped on any honest run if and only if no node linked in at the anchor, up to the joining node, between search answer and query; equivalently, if the neighbour reported lies past the joining node |
| `Drops.SearchLinkNeverDropped` | src/node/base_node.rs:441-470 | whatever runs beside the join, the request to the node its search found is never dropped, unless that node holds the joining node's own identifier |
| `Splits.QueryLinkMayBeDropped` | src/node/base_node.rs:465-486 | an honest run, with the whole joins of two nodes, in which the request to the queried neighbour is dropped without a reply |
| `Builder.Build` | src/node/skip_graph_integration_test.rs:33-104 | fails exactly for no nodes; otherwise every slot of every level holds the closest node on its side sharing that many bits |
| `Builder.LinkLevelZero` | src/node/skip_graph_integration_test.rs:51-68 | linking adjacent pairs gives the specification at level 0 |
| `Builder.LinkNode` | src/node/skip_graph_integration_test.rs:70-103 | serving one node extends the specification by it, although the scan narrows and stops early |
| `Builder.FindLeft` | src/node/skip_graph_integration_test.rs:73-94 | the scan from the lower level's neighbour finds the closest match from the node itself |
| `Builder.LinkAtLevel` | src/node/skip_graph_integration_test.rs:73-95 | the node and its closest match at the level are linked, if there is one |
| `Builder.LinkPair` | src/node/skip_graph_integration_test.rs:79-91 | both ends are written, and the right end was empty before |
| `Builder.NarrowingLosesNothing` | src/node/skip_graph_integration_test.rs:96-98 | starting at the neighbour one level below finds what starting at the node finds |
| `Builder.StoppingLosesNothing` | src/node/skip_graph_integration_test.rs:99-101 | after a level without left neighbour no higher level has one |
| `Builder.ClosestIsMutual` | src/node/skip_graph_integration_test.rs:124-142 | j is i's closest match to the left exactly if they match and j has no match before i to the right |
| `Builder.RightNeverOverwritten` | src/node/skip_graph_integration_test.rs:90-91 | no two nodes write the same right slot |
| `Builder.BuiltSlotsAreTrue` | src/node/skip_graph_integration_test.rs:115-153 | in identifier order every built slot holds the identity of the true neighbour of its level list |
| `Builder.BuiltGraphIsSearchable` | src/node/skip_graph_integration_test.rs:169-220 | the built graph is complete and navigable, so searches over it are exact |

## Left out

- Stage-2 climbing (`BuddyOp`), the repair sweep (`CheckNeighborOp`) and its schedule: the dispatcher rejects these events; `UnsupportedOp` stands for them.
- Reciprocity and connectivity after concurrent joins: not guaranteed by the code, as `Splits.SplitIsReachable` shows.
- The multi-round join under concurrency: concurrent joins enter as arbitrary honest requests; only a join run alone is followed through its phases.
- Real time, timeouts and cancellation inside the async calls: a released guard is an event, and a request that gets no answer stays unanswered.
- Send failures: a failed send is a lost packet; the error returned to the caller is not followed.
- BaseNodes.BaseNode.StartSearch: starts the call; how long its guard lives is an event in `Waiters`, and reads interleaved with writes of other handlers are `DeliverTorn` in `Overlay`.
- BaseNodes.BaseNode.SendLinkRequest: parks the waiter and sends; the wait for the reply, its timeout and the result of the call are not in its contract. For a join run alone the reply is `Join.JoinInserts`.
- `NetworkHub`, `MockNetwork` and `MessageProcessor`: replaced by the packets in flight.
- Hex parsing and printing, `Display`, `decompose_at_bit`, `MembershipVector::from_bytes` (the same padding as for identifiers), tracing, metrics, `IrrevocableContext`: presentation or thin code.
- `search_by_mem_vec`: not implemented in the source.
- Nonce collisions: nonces are drawn at random; `Waiters.Register` takes distinct ones, and results about one request take its nonce to be unused before.
- Addresses in the builder: the harness writes a fixed address into each entry; the model keeps the node's own identity.
