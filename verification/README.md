# Routing, framing and reconciliation of the ROS 2 overlay, in Dafny

This project models the distributed part of the system: the routing tree that publishers, proxies and listeners of a
topic share through one Redis key, the packet framing between peers, and the bookkeeping that turns the tree into
connections. `dafny verify dfyconfig.toml` (Dafny 4.11) checks the whole project.

## The system and the main results

**The routing tree.** One value per topic holds `publishers`, `proxies`, `edges` and attach times. Nodes register,
listeners subscribe, and two different programs disconnect nodes. All of them read the value, compute a new one and
swap it in with WATCH / compare / MULTI / EXEC. `RoutingModel` says what each operation computes, as functions on
values; `Routing` has the operations in the source's own form, a class updated in place with its loops, each proved
equal to those functions. `Proposals(op, st, f)` is the list of values an attempt on `st` hands to the swap, in order,
while every swap is refused: its first element is the operation on a fresh read, the later ones come from going on with
the value already changed.

* *Tree.* `Protocol` is a state machine of any number of processes taking one atomic step at a time. With fixed roles and
  any fanout, as long as no accepted swap follows a refused one of the same turn, the edges are at every
  moment of every run a tree below `publishers[0]`: one parent each, no cycle, every parent registered and reachable
  from the root (`Protocol.TreeAlways`, `TreeSafety.InvMeans`). So a proxy with children has a parent, and the proxy
  branch of the re-join rule never fires. Reading again after every refused swap is enough for that condition
  (`Protocol.RereadsNeverLate`).
* *The loops as written.* `subscribe` does not read again after a refused swap; it goes on to the next node. The fanout
  bound of the file header survives that (`Protocol.FanoutAlways`), the tree does not: the k-th further offer gives the
  subscriber k + 1 parents. Over every run the edges stay a tree if and only if no accepted swap followed a refused one
  of the same turn (`Retry.TreeIffNeverLate`), and `Retry.TwoParentRun` is a run from the empty key, default fanout and
  all proxies alive, that ends with two parents.
* *Growth.* While the proxies in the tree answer their heartbeats, a subscriber always finds a place or is told that no
  unused proxy is left (`Growth.SubscribeLands`); grafts happen only in a full tree, so p proxies in the tree take at
  some time p*(f-1) + 2 attached listeners, the number computed by `choose_proxies` always suffices, and the proxies
  form one path below the root (`Protocol.ShapeAlways`, `Protocol.RunNeverLacksProxies`).
* *Depth.* The price is the number of hops: whenever as many listeners are attached as ever before, all of them are
  within h hops of the root if and only if there are at most h*(f-1) + 1 (`Depth.HopsExactly`). At any other moment the
  listeners attached give a lower bound (`Depth.LongPathAlways`) and the most there ever were an upper one
  (`Protocol.HopsAlways`).
* *Swaps.* Each change of the key is one operation applied to exactly the value it replaces
  (`Protocol.RunRefinesSequence`).

**The packet parser.** For any packets and any cutting of their bytes, `PacketParser` outputs the sent headers and bodies
in order, each with the feed that completes it, and holds exactly the unfinished tail; with at most five undecodable
segments in a row nothing is lost, and the parser catches up.

**Peers.** Names and connections survive printing and parsing, the connection table follows the edges that involve the
node whatever was seen before, and in every reachable tree all signal ids are different.

## Where the code differs from what is said about it

* `core/src/routing.rs:365-367` promises one update, retried on conflicts. `core/src/routing.rs:495` and the end of the
  loop body at `core/src/routing.rs:593` go on with the changed state and the old comparison value instead. A second
  writer that stores the same text between WATCH and EXEC makes the first swap fail and a later one succeed.
* `core/src/routing.rs:6-10` states the fanout bound without condition, and `core/src/routing.rs:35` lets the fanout be 1.
  A graft then moves one child all the same (`core/src/routing.rs:545`) and the new proxy has two. Over every run the
  bound holds if and only if the fanout is at least two or no graft is ever accepted (`FanoutOne.BoundIffNeverGrafts`);
  in `FanoutOne.FanoutOneRun` two subscribers are enough to break it.
* `bench/benchmark2_latency.py:12` expects log_fanout(N) hops for N listeners. Grafting under the deepest node gives one
  proxy per level, and the hops grow linearly in N. The logarithm, rounded up, bounds the hops if and only if there are
  fewer than 2*f listeners (`Depth.WithinLogExactly`, at moments with as many listeners as ever). Runs that reach the
  linear depth exist for every fanout and every N (`Depth.LinearRun`); six listeners at the default fanout are three hops
  deep (`Depth.SixListeners`).
* The signaling server drops the attach times when it writes (`signaling/src/main.rs:40-44`). No tree result uses them,
  and without them a value has only one text that core can write, which is what `Retry.TwoParentRun` uses.
* A failed read of the key is no error to `current_connections` (`core/src/routing.rs:679-681`): it lists no edges. The node
  then shuts down every connection and, if it is a listener, subscribes again (`Reconciler.TopicManager.OnChange`,
  `Reconciler.RejoinRule`); the error branch at `core/src/topic_manager.rs:236-239` is not taken.
* Generation numbers start again at 1 when an entry has been removed, so an older connection that outlives the latest one
  can remove a third one's entry (`Signaling.LingeringDisconnect`); `Signaling.WhoRemoves` says exactly when.

## Assumptions

* A node has one role per topic and all processes use the same fanout (`core/src/topic_manager.rs:345-387`).
* Names are 4-byte values, numbers below 2^32. The value stored under the key is modelled with a spelling: printing the
  routing state as JSON and parsing it gives the state back, swaps compare texts, and an unset key and a failed read both
  give the empty text. Equal states have different texts when their attach times are printed in different orders, or when
  one writer prints the attach times and the other does not.
* Heartbeat answers and clock readings are arbitrary and asked afresh for each attempt (`RoutingModel.Env`). "Alive" or
  "healthy" in a result means the answers that were given.
* The packet header decoder is any function that reads printed headers back; `Wire.DecodePrinted` is one. A name record
  is its JSON text. `usize` has 64 bits.
* The two operations of `choose_proxies` round by no more than one part in a hundred; double precision rounds by no more
  than one part in 2^53.

## Modules

| module | content |
|---|---|
| `Basics` | sequences, sets, sorting |
| `Tree` | rooted trees as edge sets with a depth for each node: attaching, grafting, cutting, counting |
| `RoutingModel`, `Routing` | the operations on values, and on the object updated in place |
| `BfsProofs`, `Fanout`, `TreeSafety`, `Growth`, `Shape` | what the operations keep and achieve |
| `Effects`, `Subscribing` | what they write and report, in terms of the stored fields; a whole turn of subscribe |
| `Protocol`, `Runs`, `Retry` | concurrent runs, how they are built, and the loops as written |
| `Depth`, `Branch`, `FanoutOne` | hops against listeners; when the path of proxies branches; the bound at a fanout of one |
| `Signaling` | the second writer and the client table |
| `Names`, `Wire`, `PacketParsing` | printed names, frames, the stream parser |
| `Reconciler` | the connection table and signal ids |

No lemma relies on automatic induction: Dafny 4.11 may assume an induction hypothesis over sequences of any type, which
is too strong, so every lemma it would be added to carries `{:induction false}`.

## Model

| member | source | states |
|---|---|---|
| `Protocol.TreeAlways` | core/src/routing.rs:6-10 | in every run of any processes with fixed roles, at any fanout, in which no accepted swap follows a refused one of the same turn, the stored edges are at every moment a tree below publishers[0], and nobody but a listener ever decides to subscribe |
| `Protocol.RereadsNeverLate` | core/src/routing.rs:365-367 | in runs with a fresh read after each refused swap, as the comment promises, no accepted swap follows a refused one |
| `Protocol.UnrefusedNeverLate` | core/src/db.rs:65-84 | nor in runs in which no swap is refused |
| `Protocol.FanoutAlways` | core/src/routing.rs:368-598 | in every run with f >= 2, also of the loops as written, no parent has more than f children and edges are unique |
| `Protocol.RunRefinesSequence` | core/src/db.rs:65-96 | every run is a sequence of commits, each one operation applied to the very value it replaces; a process about to commit still has the text it read, so a failed read never overwrites a non-empty value |
| `Protocol.StepRefines` | signaling/src/main.rs:61-79 | a single step leaves the key alone or commits one allowed operation on the value in the key |
| `Protocol.ShapeAlways` | core/src/routing.rs:503-594 | with the tree's proxies answering, in every run without late swaps the proxies form one path below the root, and p of them imply that p*(f-1)+2 listeners were attached at some earlier or the present moment |
| `Protocol.HopsAlways` | core/src/routing.rs:503-594 | in such runs a node h > 1 hops below the root implies a moment with (h-1)*(f-1)+2 attached listeners |
| `Depth.LongPathAlways` | bench/benchmark2_latency.py:12 | in such runs, at every moment with l > 0 attached listeners, one of them is at the end of a path of at least (l-1)/(f-1) hops from the root |
| `Depth.HopsExactly` | core/src/routing.rs:503-594 | in such runs, at every moment with as many listeners as ever before, all of them are within h hops of the root if and only if there are at most h*(f-1)+1, for every h >= 1 |
| `Depth.WithinLogExactly` | bench/benchmark2_latency.py:12 | so with e the logarithm of their number to the base f, rounded up, all of them are within e hops if and only if there are fewer than 2*f |
| `Depth.MoreThanLog` | bench/benchmark2_latency.py:12 | with more than f^(e-1) listeners, e >= 3, that path has more than e hops: more than the logarithm rounded up |
| `Depth.LinearRun` | bench/benchmark2_latency.py:12 | for every f >= 2 and every n there is a run from the empty key, no swap refused and all proxies answering, that attaches n listeners, and at its end they are within h hops if and only if n <= h*(f-1)+1 |
| `Depth.SixListeners` | bench/benchmark2_latency.py:12 | at fanout three a run without refused swaps has six listeners at its end, one at least three hops away, though 6 < 3^2 |
| `Depth.JoinAdds` | core/src/routing.rs:457-594 | a subscribe in a healthy tree attaches exactly one listener more and changes neither publishers nor proxies |
| `Protocol.RunNeverLacksProxies` | bench/bench_utils.py:144-167 | in any run without late swaps, with choose_proxies(n, f) registered proxies that answer and at most n listeners, a subscriber that reads the value has an update to propose: "No unused proxies" does not occur, whatever the rounding of the formula |
| `Retry.ParentsPerOffer` | core/src/routing.rs:457-497 | the offer made after k refusals in one turn has the subscriber under exactly k + 1 parents, across both passes |
| `Retry.TreeIffFirstAccepted` | core/src/routing.rs:480-496 | at any fanout, an accepted offer of a turn leaves a tree if and only if it is the first |
| `Retry.TreeIffNeverLate` | core/src/routing.rs:368-598 | over any run as written, at any fanout, the edges are always a tree if and only if no accepted swap came after a refused one of the same turn |
| `Retry.TwoParentRun` | core/src/routing.rs:483-495 | a concrete run from the empty key ends with a subscriber under two parents; the text that the second writer repeats is the only one it can write |
| `TreeSafety.OpKeepsTree` | core/src/routing.rs:289-674 | each operation, on a fresh read and at any fanout, keeps roles, registration, uniqueness and the tree |
| `TreeSafety.InvMeans` | core/src/routing.rs:6-10 | the invariant in plain words: all edges reachable from the root, the root has no parent, one parent each, no cycles |
| `TreeSafety.NoRejoin` | core/src/topic_manager.rs:294-321 | no proxy has children and no parent, so the proxy branch of the re-join rule cannot fire |
| `TreeSafety.RegisterPublisherKeeps` | core/src/routing.rs:289-326 | a first publisher becomes the root of a value without edges; after a later one root and tree are the same; the invariant is kept |
| `TreeSafety.RegisterProxyKeeps` | core/src/routing.rs:329-363 | registering a proxy keeps the invariant |
| `TreeSafety.SubscribeKeeps` | core/src/routing.rs:368-598 | attach or graft, at any fanout, the first offer keeps the invariant whatever the heartbeats answer |
| `TreeSafety.CutKeeps` | core/src/routing.rs:630-650 | disconnect leaves a tree; removing the root leaves no edge; no edge touches the node |
| `TreeSafety.SignalKeeps` | signaling/src/main.rs:137-166 | after the signaling server's disconnect the invariant holds, the node is neither registered nor in any edge, the root is the old one, or, if that is the node, no edge is left |
| `TreeSafety.GraftStepIs` | core/src/routing.rs:531-579 | the loop of a graft amounts to: edges to the first registered, unused, alive proxy and from it to the subscriber, and min(k, f-1) of the k non-proxy children moved and stamped with the time of the move, each attached before those that stay, by name if at the same time |
| `Growth.SubscribeLands` | core/src/routing.rs:457-596 | in a tree with live proxies an attempt attaches at the least depth with room, or grafts under a deepest node of an entirely full tree, or reports that no unused proxy answers; it never falls through |
| `Effects.AttachesAtLeastDepth` | core/src/routing.rs:457-497 | for every stored value and all answers: if any node searched serves and has room, the first offer attaches under the first such node of the search, one at the least distance from the root |
| `Effects.FirstOffer` | core/src/routing.rs:457-579 | for every stored value and all answers, in terms of the stored fields: the first offer attaches at the first node of the search that serves and has room; without one it grafts at the first candidate that serves and has a child to move, under it the first registered proxy that answers and is at no edge and no publisher, moving the children with the smallest attach times, min(k, f-1) of them and at least one, and stamping them; without such a proxy nothing is offered and the attempt is an error, without such a candidate it is not |
| `Effects.AttachMeans` | core/src/routing.rs:457-482 | pass 1 at a node, first or later, on any values: it attaches exactly if the node serves and had fewer than f children when read |
| `Effects.StepMeans` | core/src/routing.rs:505-536 | pass 2 passes over a node exactly if it does not serve or had no child to move when read, and gives up only where no registered proxy that answers is idle |
| `Effects.GraftMeans` | core/src/routing.rs:531-579 | what a graft, first or later, writes: the proxy, the children read with the smallest attach times so far, their number, the edges and times left |
| `Effects.SeededTimes` | core/src/routing.rs:434-446 | which attach times an attempt works with: those stored, one clock reading for the subscriber, a second one for attached listeners without a time |
| `Effects.CandidateOrder` | core/src/routing.rs:503-504 | candidates of pass 2 come deepest first, by name at the same depth |
| `Effects.RegisterWrites` | core/src/routing.rs:289-363 | registering adds the node at the end of its list, if absent, and changes nothing else |
| `Effects.DisconnectWrites` | signaling/src/main.rs:135-166 | both disconnects keep the order of the edges left; core's changes only edges; the other drops the attach times and, when the root goes, makes the next publisher the first |
| `Growth.SearchIsInner` | core/src/routing.rs:243-264 | on a tree the search outputs exactly the root and the proxies in the tree, with their depths |
| `Growth.GraftEffect` | core/src/routing.rs:531-579 | a graft adds two edges net, attaches exactly the proxy and the subscriber, moves exactly min(k, f-1) children, each with a smaller stored attach time than those that stay, or the same and a smaller name, deepens exactly those by one and changes no other depth |
| `Growth.FullSize` | core/src/routing.rs:499-502 | a full tree with p proxies has p*(f-1)+f listeners |
| `Growth.ChooseIsEnough` | bench/bench_utils.py:144-167 | choose_proxies(n, f), its division and product rounded by up to one part in a hundred, exceeds the number of proxies in any full tree that a listener among n can meet |
| `Growth.ChooseExactly` | bench/bench_utils.py:144-167 | without rounding choose_proxies gives zero if the root has room for all, otherwise the least number from f+f^2 on that is at least 1.5*n/(f-1) |
| `Growth.ProxiesLeft` | core/src/routing.rs:531-536 | with a live registered proxies and fewer than a*(f-1)+f listeners in a healthy tree, the error for lack of a proxy is not returned |
| `Growth.ProxiesSuffice` | core/src/routing.rs:531-536 | with choose_proxies(n, f) live proxies it is not returned to the n-th listener |
| `Shape.HopBound` | core/src/routing.rs:503-594 | in any tree with p proxies every node is at most p+1 hops from the root |
| `Shape.SpineDepths` | core/src/routing.rs:503-505 | on a spine the p proxies are at exactly the depths 1 to p: deepest-first grafting gives one proxy per level |
| `Shape.ListenersByDepth` | core/src/routing.rs:503-505 | on a spine whose listeners are all within h hops there are at most h*(f-1)+1 of them |
| `Shape.DeepestListener` | core/src/routing.rs:503-505 | so the deepest of l listeners has depth at least (l-1)/(f-1) |
| `Branch.GraftKeepsSpine` | core/src/routing.rs:503-505 | a graft under n leaves the proxies on one path if and only if no proxy in the tree is deeper than n |
| `Branch.DeadProxiesBranch` | core/src/routing.rs:505-514 | a subscribe that finds a full tree whose proxies are dead grafts an unused one under the root: a tree still, and no longer one path |
| `Branch.BranchRun` | core/src/routing.rs:505-514 | a run from the empty key in which that happens |
| `Shape.OpShaped` | core/src/routing.rs:368-674 | every operation keeps tree, fanout, spine and the sizing bound |
| `Fanout.FanoutKept` | core/src/routing.rs:457-594 | every offer of an attempt, first or later, in both passes, keeps the bound and unique edges |
| `Fanout.GraftNeedsTwo` | core/src/routing.rs:538-545 | a single graft on a fresh read keeps the bound if and only if f >= 2 |
| `FanoutOne.OfferBounded` | core/src/routing.rs:457-594 | for every f >= 1: the k-th offer of an attempt on a value within the bound is within it if and only if f >= 2 or it is one of the offers of pass 1, one for each node searched that is usable with fewer than f children |
| `FanoutOne.BoundIffNeverGrafts` | core/src/routing.rs:6-10 | over any run as written, at any fanout: no parent ever has more than f children and edges stay unique if and only if f >= 2 or no offer of pass 2 is ever accepted |
| `FanoutOne.FanoutOneRun` | core/src/routing.rs:30-38 | a run from the empty key at f = 1, no swap refused, after which the proxy has two children, the listener that moved and the subscriber |
| `BfsProofs.BfsExact` | core/src/routing.rs:243-264 | the search outputs exactly the intermediates reachable through intermediates, once each, in order of depth, each with its shortest distance; for every stored value |
| `BfsProofs.SearchOrder` | core/src/routing.rs:243-264 | the order of the output: by the place of the first parent in it, then by name |
| `BfsProofs.ChildrenInOrder` | core/src/routing.rs:187-200 | the children searched are those of the stored edges, ascending, once each |
| `RoutingModel.ChildrenInsAppend` | core/src/routing.rs:202-216 | the other children list grows at its end by each child that is new |
| `Tree.TreeMeaning` | core/src/routing.rs:6-10 | a depth labelling of the edges gives reachability, single parents and no cycles |
| `Tree.DepthsUnique` | core/src/routing.rs:243-264 | the depths of a tree are determined by its edges and root |
| `Tree.GraftTree` | core/src/routing.rs:566-578 | grafting an unattached node and moving leaves under it keeps the tree |
| `Tree.CutTree` | core/src/routing.rs:645-648 | cutting a subtree leaves a tree with the old depths |
| `Tree.CutCount` | core/src/routing.rs:645-648 | the number of edges cut is the size of the subtree, less one if its top had no parent |
| `RoutingModel.MoversAre` | core/src/routing.rs:542-553 | the children chosen to move: distinct, non-proxies, the prescribed number, and each with a smaller attach time than those that stay, a missing time counting as zero, or the same time and a smaller name |
| `RoutingModel.GraftIs` | core/src/routing.rs:566-578 | removing and adding edges one by one gives the grafted edge set |
| `RoutingModel.MoveTimes` | core/src/routing.rs:569-578 | exactly the children moved get the time of the move |
| `Routing.RoutingState.AddPublisher` | core/src/routing.rs:130-134 | adds at the end if absent |
| `Routing.RoutingState.AddProxy` | core/src/routing.rs:136-140 | adds at the end if absent |
| `Routing.RoutingState.AddEdgeUnique` | core/src/routing.rs:156-160 | adds at the end if absent |
| `Routing.RoutingState.RemoveEdge` | core/src/routing.rs:162-165 | removes every copy, keeping the order |
| `Routing.BuildChildrenMap` | core/src/routing.rs:187-200 | the map gives each parent its sorted, duplicate-free children |
| `Routing.BuildChildrenMapInsertionOrder` | core/src/routing.rs:202-216 | the map gives each parent its children in order of first insertion |
| `Routing.BfsIntermediatesWithDepth` | core/src/routing.rs:243-264 | the queue loop computes the search that `BfsProofs.BfsExact` describes, and ends |
| `Routing.CollectSubtree` | core/src/routing.rs:630-643 | the queue loop of both disconnects computes exactly the node and its descendants, on any edges |
| `Routing.UsedNodesSet` | core/src/routing.rs:266-276 | the ends of all edges and the publishers |
| `Routing.PickUnusedProxy` | core/src/routing.rs:278-287 | the first registered proxy that is not in use and answers |
| `Routing.RegisterPublisherAttempt` | core/src/routing.rs:289-326 | computes the proposal of the operation |
| `Routing.RegisterProxyAttempt` | core/src/routing.rs:329-363 | computes the proposal of the operation |
| `Routing.DisconnectAttempt` | core/src/routing.rs:609-674 | computes the proposal of the operation |
| `Routing.SeedAttachMs` | core/src/routing.rs:434-446 | the subscriber and every attached listener without a time get one; nothing else changes |
| `Routing.GraftInPlace` | core/src/routing.rs:566-578 | the loop that moves children |
| `Routing.AttachPass` | core/src/routing.rs:457-497 | pass 1 over the mutated state, up to the first accepted swap |
| `Routing.GraftPass` | core/src/routing.rs:503-594 | pass 2 over the mutated state, up to the first accepted swap or the lack of a proxy |
| `Subscribing.SubscribeAttempt` | core/src/routing.rs:368-598 | one turn as written, with any pattern of refused swaps: the values offered and the state left; success is reported exactly if the subscriber has a parent in the value read or the one swapped in, "no publishers" exactly if there are none, "no unused proxies" only if at a node searched every registered proxy that answered is in use; with the first swap accepted the result is that of `Effects.FirstOffer`, and in a healthy tree never another turn |
| `Signaling.DisconnectNodeAttempt` | signaling/src/main.rs:135-171 | the second writer's update, with the numbers of proxies and publishers it removed |
| `Signaling.DisconnectsAgree` | core/src/routing.rs:609-674 | on any stored value both disconnects leave the same edges: all and only those touching neither the node nor a descendant; core's leaves publishers and proxies alone, the other removes exactly the node from both |
| `Signaling.DisconnectOnTree` | signaling/src/main.rs:154-169 | on a tree the number of edges removed is the size of the subtree, less one without a parent; both keep the invariant; every parent left is registered, also when the root goes |
| `Signaling.SurvivorsKeepDepth` | signaling/src/main.rs:154-157 | every node outside the subtree stays attached at its depth |
| `Signaling.ClientTable.Register` | signaling/src/main.rs:228-242 | stores one more than the generation of the entry, or 1, and returns it; the table stays in step with what happened to each id |
| `Signaling.ClientTable.Unregister` | signaling/src/main.rs:289-298 | the entry stays, unchanged, if it has another generation; other entries stay; in terms of the connections made so far, it goes exactly if this is the latest one, or one made before the last removal whose generation the numbering has reached again |
| `Signaling.ClientTable.StillConnected` | signaling/src/main.rs:316-323 | whether the table holds an id made of this topic, this node and some peer, joined by dashes, none with a dash of its own |
| `Signaling.StillConnectedMeans` | signaling/src/main.rs:300-323 | when clients register under signal ids this holds exactly if the id of this topic and node towards some peer is registered; another topic's or node's id never counts |
| `Signaling.GenerationCounts` | signaling/src/main.rs:228-242 | over any history of one id, a connection's generation is its number since the last removal |
| `Signaling.WhoRemoves` | signaling/src/main.rs:289-298 | while the entry stays, generations increase and exactly the latest connection's end removes it; an older one removes a newer entry exactly when the numbering has reached its own generation again |
| `Signaling.LingeringDisconnect` | signaling/src/main.rs:228-298 | a history in which that happens |
| `PacketParsing.PacketParser.Position` | core/src/network/webrtc.rs:114-116 | the first NUL byte, or the length |
| `PacketParsing.PacketParser.FeedData` | core/src/network/webrtc.rs:95-147 | the loop computes Feed and ends, for every decoder and all bytes |
| `PacketParsing.PacketsRoundTrip` | core/src/network/webrtc.rs:95-147 | for any packets and any cutting of a beginning of their bytes: exactly the packets whose last byte arrived come out, in order, each with its action, destination and length, and its payload followed by its record; the parser holds exactly the unread bytes |
| `PacketParsing.ChunkIndependence` | core/src/network/webrtc.rs:95-147 | two cuttings of the same bytes give the same packets and the same unread bytes |
| `PacketParsing.DrainTracks` | core/src/network/webrtc.rs:99-144 | one feed deals with every complete item, or with those up to the first undecodable segment |
| `PacketParsing.FeedAllSyncs` | core/src/network/webrtc.rs:112-142 | on a stream with undecodable segments, at most five in a row, the parser stays in step with the items however the bytes are cut |
| `PacketParsing.Resynchronises` | core/src/network/webrtc.rs:112-142 | no well-formed packet is lost or reordered, and the packets of the first m items, once these are complete, are out after as many further feeds as there are undecodable segments among the m |
| `PacketParsing.GoodsAre` | core/src/network/webrtc.rs:101-110 | what has to come out for the first k items: the packet of each well-formed one, in the place left by counting the undecodable ones before it |
| `PacketParsing.TolerableMeans` | core/src/network/webrtc.rs:129-140 | at most five undecodable segments in a row: among any six items one is well-formed |
| `PacketParsing.RetriesBounded` | core/src/network/webrtc.rs:129-140 | the counter stays within 0 to 5 for all inputs |
| `PacketParsing.SixthBadSegment` | core/src/network/webrtc.rs:130-138 | after five undecodable segments in a row the next discards what is buffered behind it; an earlier one keeps it |
| `Wire.WriteFrame` | core/src/network/webrtc.rs:339-350 | the bytes sent: a header with the packet's action, the name it goes to and the length of what follows, NUL, payload, record |
| `Wire.HeaderText` | core/src/structs.rs:100-106 | the header's bytes are the JSON text with the action's name, the four bytes of the destination and the length in decimal |
| `Wire.HeaderNoNul` | core/src/structs.rs:100-106 | no printed header contains the delimiter |
| `Wire.HeaderRoundTrip` | core/src/structs.rs:100-106 | a concrete decoder reads every printed header back |
| `Wire.DecodesExactly` | core/src/structs.rs:100-106 | it reads a header from a text if and only if the text is that header printed |
| `Wire.JsonCodecOk` | core/src/network/webrtc.rs:121-123 | every decoder that reads printed headers back, whatever else it accepts, meets what the parser results need |
| `Wire.PrintedCodecOk` | core/src/network/webrtc.rs:121-123 | the concrete decoder is one of those |
| `Names.FromStr` | core/src/structs.rs:49-61 | the loop over chunks, with short, long and malformed input, computes ParseName |
| `Names.ParsesExactly` | core/src/structs.rs:49-61 | a text is a name exactly if its first four chunks are read as the bytes of that name |
| `Names.ChunkMeans` | core/src/structs.rs:54-58 | how a chunk is read: digits of either case, a single digit, a plus before a digit, nothing, bytes that are not UTF-8; everything else is an error |
| `Names.ParsesHex` | core/src/structs.rs:49-61 | eight hexadecimal digits, whatever follows them, are read as the number they write |
| `Names.PrintsHex` | core/src/structs.rs:39-47 | a name prints as the eight lower-case digits of its number |
| `Names.NameRoundTrip` | core/src/structs.rs:39-61 | parsing a printed name, whatever follows it, gives the name |
| `Names.SplitsInThree` | signaling/src/main.rs:302-308 | a text splits into three pieces exactly if it is those pieces, none with a dash, joined by dashes |
| `Names.PrintInjective` | core/src/structs.rs:39-47 | different names print differently |
| `Names.PrintOrder` | core/src/routing.rs:187-200 | printed names sort as the names do |
| `Names.ConnectionRoundTrip` | core/src/structs.rs:179-199 | parsing a printed connection gives it back; it consists of the publisher, a dash and the subscriber |
| `Names.ConnectionsParse` | core/src/structs.rs:185-199 | exactly the texts with one dash between two names, publisher and subscriber, are connections |
| `Names.ConnectionIdInjective` | core/src/connection_store.rs:15-18 | table keys of one topic are different for different connections |
| `Reconciler.IdsMean` | core/src/connection_store.rs:15-18 | the table keys of a set of connections split into the topic, the publisher and the subscriber of one of them |
| `Reconciler.CurrentConnections` | core/src/routing.rs:677-692 | exactly the stored edges, in order; none when the read fails |
| `Reconciler.RejoinRule` | core/src/topic_manager.rs:294-321 | on a tree exactly the listeners without a parent subscribe again, and no proxy does; after a failed read every listener does |
| `Reconciler.TopicManager.HandleAdded` | core/src/topic_manager.rs:151-189 | a new entry with a new channel for a new connection that involves the node, nothing otherwise |
| `Reconciler.TopicManager.HandleRemoved` | core/src/topic_manager.rs:192-213 | the entry goes and its channel gets one shutdown |
| `Reconciler.TopicManager.Reconcile` | core/src/topic_manager.rs:233-292 | from any earlier state the table's keys become the ids of the involved edges listed; one shutdown for each edge that went, on its own channel; the others keep their channels; no channel is shared, stopped twice or used after it was stopped |
| `Reconciler.TopicManager.OnChange` | core/src/topic_manager.rs:234-321 | one turn of the loop, for whatever the read gave: the same in terms of the edges stored, and exactly who subscribes again; after a failed read every channel of the table is stopped and every listener subscribes again |
| `Reconciler.OneChannelEach` | core/src/topic_manager.rs:175-185 | two entries of the table have the same channel only if they are one |
| `Reconciler.EmptyReadStopsAll` | core/src/routing.rs:679-681 | reading no connections, as after a failed read, sends exactly one shutdown on every channel of the table and leaves no id |
| `Names.SignalIdSplits` | signaling/src/main.rs:300-308 | splitting a signal id gives the topic, the node and its peer |
| `Reconciler.RegistersAsItself` | core/src/topic_manager.rs:26-51 | a node registers under the topic, its own name and its peer's; the subscriber, and only it, dials topic, publisher, subscriber |
| `Reconciler.CountsAsItself` | signaling/src/main.rs:300-308 | the id a node registers under belongs, for the signaling server, to this topic and this node and to no other |
| `Reconciler.DialsThePublisher` | core/src/topic_manager.rs:26-51 | the subscriber dials the id its publisher registers under |
| `Reconciler.SignalIdsDistinct` | core/src/topic_manager.rs:26-51 | in a tree the ids of both ends of all edges are pairwise different |
| `Reconciler.SignalIdsAlwaysDistinct` | core/src/topic_manager.rs:26-51 | the same at every moment of every run with fresh reads |

## Left out

- Protocol.TreeAlways: requires that no accepted swap follows a refused one of the same turn, which the loops as written do not ensure; `Retry.TreeIffNeverLate` shows that this is the exact condition.
- Protocol.ShapeAlways: needs proxies in the tree to answer heartbeats; `Branch.DeadProxiesBranch` and `Branch.BranchRun` show the second branch that grows when they do not, `Branch.GraftKeepsSpine` when exactly a graft starts one.
- Depth.HopsExactly: speaks of moments with as many listeners as ever; after listeners have left, the depth depends on which ones.
- Wire.HeaderRoundTrip: the decoder accepts only what the printer writes; the rest of the JSON grammar is not modelled, the parser results hold for any decoder covered by `Wire.JsonCodecOk`.
- Reconciler.TopicManager.Reconcile: a channel is a number; what the connection task does with its shutdown signal is not modelled.
- Depth.LinearRun: needs 2*n names, which are 32 bits wide.
- Retry limits, backoff, debounce and delays: a process may give up or be arbitrarily slow at every step.
- The clean-up of the name map after the signaling server's disconnect, and the deletion of keys when a session starts.
- The fallback to an empty state when the stored text cannot be parsed.
- The order and delivery of messages the signaling server buffers for clients that are not connected.
- The search without depths (`core/src/routing.rs:218-241`), which repeats the modelled one, and the breadth-first count of the benchmark's hop histogram.
- How names are made: hashing of topics gives no uniqueness theorem on 32 bits.
- Heartbeat storage, WebSocket, WebRTC, ROS and task plumbing, configuration, dashboards and logging.
