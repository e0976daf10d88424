# Causal computations, verified

A Dafny model of the deterministic core of this event-processing library, with proofs about it.
`dafny verify dfyconfig.toml` checks the whole project.

An event-based computation is a *causal preorder*: occurrences, causal-equivalence classes, and a
strict order between classes. The library keeps it as five mutually redundant structures with
Lamport stamps and clock intervals on top, merges it with other replicas' snapshots, maps it to
another preorder by rules, searches it for cuts and embeddings, and runs models over it so that a
run can be replayed exactly. The project models five connected parts of that.

**The causal preorder.** `Reachability`, `Timings`, `CausalOrder` and `Stamps` hold the mathematics:
what a view of a computation is, when it is consistent (acyclic, headed by least members, on time),
and what each operation does to its order. `Stores` ties the five structures to a view, and the
class `Poset` (module `Posets`) updates them in place; every method states the whole new view, the
whole new stamping, and exactly when it fails and changes nothing. `EmptyIdentity` follows the one
accepted operation after which the structures no longer show the view. `Operations`, `Observations`,
`Merging`, `MergeStamps`, `Convergence` and `Snapshots` cover additional observations, runs of
operations and snapshot merges, and `SnapshotLaws` says field by field what a merge takes over and
reports; `Exports` and `Replication` full snapshots and what a fresh poset becomes by merging one;
`Kahn` and `Depths` the topological passes and the self-check; `Canonicals` and `CanonicalParser`
the canonical form and the way back.

**Event-pattern maps.** `MapPolicies` defines the six set-to-set dependency policies, shows five of
them to be strict orders and says when the sixth, Diff, is acyclic; `PolicyLaws` says what each
means in terms of the causal order alone; `FiringOrders` sorts and reduces the firing relation;
`MapBodies` and `MapExecution` materialise rule bodies into a range poset (`MapBodyLaws`: what
causes what in it, and what comes last); `MapArtifacts` runs the whole map and the artifact check
that re-derives the relation from the range. `MapCollisions` is a run that finishes and does not
pass it. The check also refuses consumed domain events with the identity of a range event; range
identities being digests over the domain's digest, only a collision of digests brings that about.

**Subtyping.** `Descriptors` turns each pair of a cyclic type graph into a formula over further
pairs and defines the subtype relation as the greatest fixed point; `SubtypeRules` says what the
relation asks of each kind of descriptor; `SubtypeChecker` is the memoising checker; `SubtypeLaws`
and `SubtypeOverloads` say what the relation and the checker keep, and show by concrete graphs what
they do not.

**Exact searches.** `Cuts` and `Computations` enumerate the cuts of an augmented computation and
read Ref state at each; `CutLaws` says which occurrences keep company in a cut and why ordinary Ref
histories never break in one; `Embeddings` searches for a causality-preserving embedding.

**Deterministic runs.** `Clocks` is the clock kernel, `Choices` the replayable choice resolver,
`ObservationQueue` the ready-observation worklist, `Encoding` and `Preimages` the byte encoding
behind content-derived identities and `Decoding` a reader for it.

Strings are byte sequences in bytewise order (`Texts`), joined with NUL bytes where the library does
so to make keys (`JoinedKeys`). Values are trees (`Values`). Errors are outcomes, never
preconditions, wherever the library reports them.

Where code and expectation part, the model follows the code and says so:

- A true subtype answer can be wrong where overloaded members lead into a cycle of goals, because a
  verdict reached under an assumption survives the assumption's failure
  (`SubtypeOverloads.OverloadsFoolTheChecker`); elsewhere it is right (`SubtypeChecker.CheckerDecides`).
- Subtyping is not transitive: it fails exactly at three gaps around requirements and parameter
  defaults (`SubtypeLaws.TransitiveIff`).
- The class index reads the empty identity as "no class". An accepted merger of the empty identity
  with another class therefore loses the class, and the self-check reports it
  (`Posets.Poset.AddCausalEquivalenceClass`, `Depths.EmptyIdentityTears`).
- Under the Diff policy a run is refused as cyclic exactly when some match lies within another and
  precedes the rest of it (`MapPolicies.DiffStuckIff`).
- The per-class check of a rule body accepts bodies whose classes cause each other crosswise; such a
  body fails only when it is materialised (`MapBodies.CrossedClasses`).
- Two classes whose members contain NUL bytes can share a joined key. A snapshot merge then drops
  one of them without an issue (`Replication.SnapshotRebuilds`, `Replication.SnapshotReports`), and
  a canonical form likewise drops an edge (`Canonicals.CanonicalForm`).
- A rule body with two such classes merges only the first. Its run can finish with an output that
  nothing leads to, and then fails its own artifact check (`MapCollisions.CollidingRunFails`,
  `MapArtifacts.ExecuteAndCheck`).
- Two Refs can share a joined key of component and name. A cut with both is then refused, or
  accepted with one of them missing from its state (`Computations.SharedKeyRefused`,
  `Computations.SharedKeyDropped`).
- A process's current suspension is reported canceled although an advance has already reported it
  resumed (`Clocks.ClockKernel.CancelProcessWork`).
- A snapshot whose high-water mark lies below one of its own stamps is reported and merged all the
  same; stamps raised past the counter make an ordinary poset's own snapshot such a one
  (`Snapshots.HighWaterIssues`, `Replication.OrdinarySnapshotReported`).
- Added intervals are also compared with class peers, which no ordered pair demands
  (`Posets.Poset.NeighbourConflict`).

## Model

| member | source | states |
|---|---|---|
| Reachability.ReachIffPath | causal_equivalence.go:341-366 | the closure every order claim is stated in relates two nodes exactly when a finite path of edges leads from one to the other |
| Reachability.ReachWithEdge | poset.go:212-251 | adding an edge orders exactly the old pairs and those that go up to its tail and on from its head |
| Reachability.ReachCollapsed | causal_equivalence.go:36-87 | identifying a set of nodes relates, between images, exactly the pairs already related and those joined through the identified set |
| Reachability.AcyclicCollapsed | causal_equivalence.go:36-87 | identifying pairwise unrelated nodes of an acyclic graph creates no cycle |
| Reachability.KahnProgress | canonical.go:662-711 | in an acyclic graph some unvisited node has only visited predecessors, so the pass never starves |
| Reachability.DepthStep | canonical.go:684-694 | one more than the deepest predecessor is the length of a longest chain ending at a node |
| Texts.SortedUnique | canonical.go:417-421 | a set of identities has one strictly ascending listing, so sorting hides map iteration order |
| Texts.LessIff | canonical.go:417-421 | identities compare at their first differing byte, and a proper prefix comes first |
| Timings.CanonicalizeEventTimings | event_timing.go:27-44 | accepts exactly the lists of well-formed intervals with at most one per clock, and returns the permutation sorted by clock |
| Timings.CanonicalUnique | event_timing.go:27-44 | two canonical lists with the same intervals are equal |
| Timings.Timing | event_timing.go:47-56 | binary search finds the interval on a clock whenever the event has one |
| Timings.SharedTimingConflict | event_timing.go:85-107 | the two-pointer pass reports a conflict exactly when some shared clock has the earlier event finishing after the later one starts |
| CausalOrder.BeforeIsStrictOrder | poset.go:466-485 | strict precedence is asymmetric and transitive, and equivalent events have the same past and future |
| CausalOrder.BeforeWithEvent | poset.go:100-128 | a new event changes no ordered pair and is related to nothing |
| CausalOrder.EdgeConsistentIff | poset.go:212-251 | an edge between different classes keeps the preorder acyclic and on time exactly when its head is not at or before its tail and no pair it bridges clashes |
| CausalOrder.BeforeWithEdge | poset.go:212-251 | after an accepted edge the strict order is the old one plus exactly the bridged pairs |
| CausalOrder.LeqWithCauses | poset.go:279-340 | an event added with causes follows exactly what is at or before one of them, precedes nothing, and leaves the order of the others alone |
| CausalOrder.NextCauseFits | poset.go:279-340 | once the whole event passes the pre-checks, each further cause edge is accepted in any order |
| CausalOrder.BeforeWithClass | causal_equivalence.go:36-87 | merging pairwise unordered classes keeps the quotient acyclic, loses no ordered pair, and orders exactly what the transitive closure with those classes identified orders |
| CausalOrder.ClassTimingIff | causal_equivalence.go:94-145 | the restricted scan of a class merge accepts exactly when the merged preorder obeys the timing rule on all ordered pairs |
| CausalOrder.ContentKeepsConsistent | event_observation.go:293-353 | replacing an occurrence's intervals by ones that clash with nothing comparable keeps the rule for every ordered pair and leaves the order alone |
| CausalOrder.IntervalsFollowOrder | event_timing.go:85-107 | in a consistent computation the interval of an event ends at or before the start of that of any later event on the same clock |
| Stamps.LawfulFollowsOrder | poset.go:242-274 | stamps lawful on edges and classes increase along the whole strict order and agree between equivalent events |
| Stamps.RaiseStep | poset.go:255-274 | one raise keeps every waiting repair below every lawful stamping above the start and strictly raises the sum of stamps |
| Stamps.LeastComposes | causal_equivalence.go:54-86 | successive repairs yield the least stamping above the first start |
| Stamps.EdgeRaise | poset.go:242-249 | raising the head of a new edge just above its tail is forced: every lawful stamping goes at least that far |
| Stores.HeadEdges | causal_equivalence.go:301-339 | only representatives carry edges, both edge maps say the same, and edges join representatives of different classes |
| Stores.NothingTimed | poset.go:342-362 | when the timed-event counter is zero no pair of events can clash, so the fast path skips nothing |
| Stores.StoredClassKeeps | causal_equivalence.go:54-86 | folding classes none of which is headed by the empty identity and renaming both edge maps yields five mutually consistent structures showing exactly the merged view |
| EmptyIdentity.TornUnreadable | causal_equivalence.go:218-223 | after a merger that joins the empty identity with another class some other event reads as its own representative and has no member list, so the invariant is broken |
| EmptyIdentity.ReadSuccessorIff | causal_equivalence.go:301-317 | as long as the invariant holds, what is read through the class index are exactly the edges of the view |
| Posets.Poset.constructor | poset.go:64-72 | a new poset is valid, empty and at counter zero |
| Posets.Poset.Successors | causal_equivalence.go:301-317 | lists in ascending order exactly the classes an edge leads to |
| Posets.Poset.Predecessors | causal_equivalence.go:323-339 | lists in ascending order exactly the classes an edge comes from |
| Posets.Poset.CanReachClass | causal_equivalence.go:341-366 | breadth-first search answers true exactly for strictly preceding events |
| Posets.Poset.ReachableClasses | causal_equivalence.go:368-387 | collects exactly the classes reachable forward or backward |
| Posets.Poset.CausalPredecessorIDs | poset.go:364-374 | exactly the events at or before the given one |
| Posets.Poset.CausalSuccessorIDs | poset.go:376-386 | exactly the events at or after the given one |
| Posets.Poset.TimingClosureConflict | poset.go:342-362 | with its fast path, reports a conflict exactly when a pair the new edge bridges clashes |
| Posets.Poset.MaximumClassLamport | causal_equivalence.go:411-419 | in a lawful poset the class maximum is the stamp of any member |
| Posets.Poset.SetClassLamport | causal_equivalence.go:421-425 | sets one class and leaves every other stamp, the view and the five structures alone |
| Posets.Poset.PropagateLamport | poset.go:255-274 | terminates with the pointwise least lawful stamping at or above the one it started from, which is unique, whatever the queue order |
| Posets.Poset.AddEvent | poset.go:82-128 | refuses an event with recorded causes, otherwise accepts exactly fresh identities with admissible intervals, stamps one above the counter, keeps the invariant, and on failure changes nothing |
| Posets.Poset.MergeEvent | poset.go:130-152 | like AddEvent with the event's own stamp, the counter rising to it when lower |
| Posets.Poset.AddCausal | poset.go:212-251 | succeeds exactly when both events are known, inequivalent, not ordered backwards and every bridged pair is on time; the result is the bridged order under the least lawful stamps; otherwise nothing changes |
| Posets.Poset.ClassTimingConflict | causal_equivalence.go:94-145 | reports a conflict exactly when a scanned pair clashes |
| Posets.Poset.CheckClass | causal_equivalence.go:36-145 | its checks in their order accept exactly nonempty sets of known, pairwise unordered classes whose merger keeps the timing rule |
| Posets.Poset.AddCausalEquivalenceClass | causal_equivalence.go:24-87 | merges exactly known, pairwise unordered classes whose merger keeps the timing rule, leaves the least lawful stamps, and otherwise changes nothing; the invariant survives exactly when no accepted merger joins the empty identity with another class, and then the structures no longer show the view |
| Posets.Poset.AddCauses | poset.go:331-339 | after the pre-checks no edge insertion of the loop fails and the stamps end least lawful |
| Posets.Poset.AddEventWithCause | poset.go:279-340 | all or nothing: on success the event follows exactly what is at or before a cause, on any failure the poset is unchanged |
| Posets.Poset.NeighbourConflict | event_observation.go:308-323 | reports a clash exactly when the intervals clash with a class peer, a predecessor or a successor |
| Posets.Poset.AddObservationWithTimings | event_observation.go:280-353 | adds a role and intervals exactly when they agree with what is known, keeps order, classes and stamps, and otherwise changes nothing |
| Posets.Poset.ReplaceContent | poset.go:160-168 | replacing stored content keeps the timed-event count exact |
| Operations.EdgeOutcomeIff | poset.go:212-251 | the checks in their order accept exactly the edges whose addition leaves the preorder consistent |
| Operations.CausedOutcomeIff | poset.go:279-340 | a caused event is accepted exactly when it is new, its intervals are admissible, its causes known and those recorded, and the computation with it is consistent |
| Operations.SingleClass | causal_equivalence.go:36-50 | merging one class with itself changes nothing |
| Observations.MergeTimings | event_observation.go:293-307 | succeeds exactly when shared clocks agree and the union is admissible, and returns the canonical union |
| Observations.FindRole | event_observation.go:326-340 | the first stored role of a qualified name, which alone decides a conflict |
| Observations.RolesInOrder | event_observation.go:65-85 | the roles of an occurrence are those stored, or its own when none is, ordered by source and then by name |
| Observations.UnionOfTimings | event_observation.go:293-307 | the intervals after an accepted observation are exactly those known and those offered |
| Observations.ConflictIff | event_observation.go:326-340 | where roles agree, an observation conflicts exactly when some role of its source and name has other parameters |
| Merging.RunKeeps | poset.go:100-274 | over any sequence of insertions, class merges and edges, accepted or refused, the preorder stays consistent and no occurrence, equivalence, ordered pair or direct edge is ever lost; the class index still shows it exactly when no accepted merger joined the empty identity with another class |
| Merging.StaysIdle | merge.go:187-447 | an operation without effect stays without effect as further classes and edges arrive |
| Merging.AfterIsIdle | merge.go:187-447 | once performed or refused, an operation repeated has no effect |
| Merging.RunTwice | merge.go:187-447 | running the same events, then classes and edges twice equals running them once, even when some are refused |
| Merging.IdleIsOneClass | merge.go:341-358 | a class merge without effect named a single class, and names a single class in every later view |
| Convergence.GeneratedUnique | merge.go:187-447 | the events, classes and edges put in, as sets, determine the whole view |
| Convergence.VouchedStep | merge.go:187-447 | an operation a common consistent view knows, an occurrence possibly in other roles, is never refused in any replica of it |
| Convergence.VouchedRun | merge.go:187-447 | a run known to a common view is accepted throughout and yields exactly what it names |
| Convergence.MergesConverge | merge.go:187-447 | replicas of one computation that merge two of its descriptions and then drain agree on occurrences, classes, edges and waiting edges, whichever came first; a known occurrence keeps its own roles, so descriptions need agree only with each other on the roles they state |
| Convergence.RebuildsExactly | canonical.go:513-631 | putting every occurrence, every class of two or more and every edge of a view into an empty poset is accepted throughout and rebuilds the view exactly, in whatever order they are listed |
| Snapshots.ImportEvent | merge.go:257-271 | a new occurrence enters, a known one stays as it was, and a conflict is reported exactly when its content differs |
| Snapshots.MergeOneEvent | merge.go:234-272 | a malformed or repeated export has no effect and is reported, a repeated one at its first place only |
| Snapshots.MergeEvents | merge.go:234-272 | imports exactly the well-formed, unrepeated events, counts them by growth of the poset, and reports nothing exactly when all were clean |
| Snapshots.ImportClass | merge.go:341-358 | merges the class when it fits and reports an issue exactly when it does not |
| Snapshots.MergeClasses | merge.go:274-359 | applies exactly the accepted classes in key order, accounts for every listed one, and reports nothing exactly when all were well formed and merged |
| Snapshots.ImportEdge | merge.go:413-439 | adds, skips or queues the edge and reports an issue exactly when it is refused |
| Snapshots.MergeEdges | merge.go:361-439 | applies exactly the accepted edges, queues those with an unknown endpoint once, and reports nothing exactly when all were well formed and fit |
| Snapshots.HighWaterIssues | merge.go:212-232 | an issue exactly when some event stamp exceeds the high-water mark |
| Snapshots.MergeSnapshot | merge.go:187-447 | the poset stays valid and becomes what merging the snapshot's statement yields; new events keep their stamps and the stamps are then the least lawful ones above; the counter rises to the greatest of its old value, the new stamps and the high-water mark; events, classes and edges are each accounted for; no issue is reported exactly when nothing was malformed, repeated, contradictory or refused |
| MergeStamps.LawfulEarlier | poset.go:242-274 | a stamping lawful for a view is lawful for every earlier view of the same occurrences |
| MergeStamps.RunRepairs | merge.go:274-439 | over any run of classes and edges, successive least repairs give the least lawful stamping above the first start |
| Snapshots.CleanMergeTakesAll | merge.go:187-447 | a merge without issues has taken in every event, class and edge the snapshot states |
| SnapshotLaws.ContradictsIff | merge.go:500-526 | an export contradicts a known occurrence exactly when they differ in name, source, parameters, intervals or wall time; roles do not matter |
| SnapshotLaws.EventsInOrder | merge.go:219-228 | events are taken in ascending order of stamp and then identity |
| SnapshotLaws.EventsCleanIff | merge.go:231-272 | no event is reported exactly when every listed one is well formed, listed once, and states what is known of it |
| SnapshotLaws.DescribedEvents | merge.go:231-272 | exactly the well-formed exports without a namesake are taken over, with the stated fields and the one stated role |
| SnapshotLaws.CleanMergeKeepsStated | merge.go:187-447 | after a merge that reports nothing every listed event is in the poset as stated, in the stated role if it is new |
| SnapshotLaws.ClassesCleanIff | merge.go:274-359 | where joined keys tell classes apart, no class is reported exactly when each names two or more known events once, no event is in two of them, and the poset takes them one after another |
| SnapshotLaws.AcceptedEdgesExactly | merge.go:361-409 | exactly the listed pairs of two different nonempty endpoints are taken over |
| SnapshotLaws.CleanMergeIff | merge.go:187-447 | a merge reports nothing exactly when the mark covers every stamp, every listed event, class and edge is well formed and agrees with what is known and with the others, and the poset takes the classes and then the edges |
| SnapshotLaws.WaitingAfterMerge | merge.go:411-420 | after a merge exactly those edges wait that waited before or are listed and lack an endpoint |
| Snapshots.MergeTwiceIdle | merge.go:187-447 | in a second merge every operation is without effect and every missing edge already waits |
| Snapshots.MergeAgain | merge.go:187-447 | on a poset that is some consistent replica after merging the snapshot, merging it again leaves the five structures, stamps, counter and pending edges unchanged |
| Snapshots.DrainPendingEdges | poset.go:173-194 | tries every edge whose endpoints arrived once, keeps the others waiting, leaves the least lawful stamps above the old ones, accounts for all, and reports no error exactly when none was refused |
| Snapshots.StatesTheSame | merge.go:274-340 | a snapshot whose classes name its own events states the same to every poset |
| Snapshots.MergeInBothOrders | merge.go:187-447 | two equal replicas merging two snapshots of one computation in opposite orders, then draining, hold the same occurrences, classes, edges and waiting edges, whatever roles the replicas already know |
| Exports.SortEventIDsByLamport | merge.go:166-175 | lists a set of events strictly ascending by stamp, then identity |
| Exports.CreateSnapshot | merge.go:546-601 | states every occurrence once in its primary role with its stamp, in strictly ascending stamp and identity order, every class of two or more once, every edge once, and the counter as high-water mark |
| Replication.EdgeKeyInjective | merge.go:537-544 | edge keys never confuse two edges, whatever bytes their endpoints hold |
| Replication.SnapshotRebuilds | merge.go:187-447 | merged into an empty poset a full snapshot yields the same occurrences in their primary roles, the same classes and the same edges exactly when every occurrence can be restored (nonempty identity and name, decodable) and no two classes share a key |
| Replication.PrimaryRolesKeep | merge.go:484-486 | the view in primary roles is consistent, and is the original exactly when every occurrence has only its primary role |
| Replication.SnapshotReports | merge.go:230-232 | the merge into an empty poset reports nothing exactly when every occurrence can be restored and no stamp exceeds the counter; classes lost to a shared key go unreported |
| Replication.SnapshotStamps | merge.go:546-601 | the stamps a full snapshot of restorable occurrences brings into an empty poset are those of the original |
| JoinedKeys.PlainKeysApart | merge.go:287-292 | class keys of identities without NUL bytes determine the class |
| JoinedKeys.KeysCollide | merge.go:287-292 | with NUL bytes two disjoint classes can share a key |
| Replication.Replicate | merge.go:187-601 | creating a snapshot and merging it into a new poset: exactly when the copy has the same view in primary roles and the same stamps, and exactly when the merge reports nothing |
| Replication.OrdinarySnapshotReported | merge.go:230-232 | a concrete run: two events and one edge against their insertion order give a poset whose own snapshot is reported |
| Kahn.Lower | canonical.go:696-701 | visiting a node keeps the counts equal to the numbers of unvisited predecessors and the ready set exact |
| Depths.StartPass | canonical.go:663-680 | the first sweep counts every head's predecessors and readies exactly those without any |
| Depths.TopologicalSort | poset.go:650-683 | lists every event exactly once, causes before effects |
| Depths.CausalDepths | canonical.go:662-711 | visits every class, so no cycle is ever reported, and gives each event the exact length of the longest chain ending at its class |
| Depths.ReportIssues | poset_debug.go:165-259 | the nested checks report nothing exactly when frozenness, representatives, symmetry, endpoints and stamps are all in order |
| Depths.Validate | poset_debug.go:165-259 | reports nothing about any poset that satisfies the invariant |
| Depths.SilentAboutEvent | poset_debug.go:172-195 | where the self-check is silent every event is frozen, and its class is headed by its representative and stamped alike |
| Depths.SilentAboutEdge | poset_debug.go:197-248 | where it is silent every stored edge joins known events of two classes, is mirrored, and its stamps increase |
| Depths.SilentAcyclic | poset_debug.go:231-257 | whatever state the poset is in, a silent self-check means that the stored edges have no cycle |
| Depths.TornReported | causal_equivalence.go:218-223 | once a merger has joined the empty identity with another class the self-check reports it |
| Depths.EmptyIdentityTears | causal_equivalence.go:24-87 | a concrete run: two events, one with the empty identity, merged into one class; the self-check reports nothing before and something after, and the invariant is broken |
| Canonicals.CanonicalEvents | canonical.go:434-460 | states every event once, by identity, with its exact depth, roles and intervals |
| Canonicals.CanonicalClasses | canonical.go:427-433 | states every class of two or more once, by least member |
| Canonicals.CanonicalEdges | canonical.go:469-488 | lists edges of the view in strictly ascending key order, and all of them exactly when no two edges share a key |
| Canonicals.CanonicalForm | canonical.go:408-491 | never fails on a poset that satisfies the invariant, and yields its full canonical statement exactly when no two of its edges share a key |
| Canonicals.PlainEdgesApart | canonical.go:478 | identities without NUL bytes keep edge keys apart |
| Canonicals.CanonicalIffSameMeaning | canonical.go:408-491 | two posets have one canonical form exactly when they hold the same occurrences, roles, intervals, classes and edges: insertion order leaves no trace and nothing else is lost |
| CanonicalParser.RestoredMeaning | canonical.go:548-576 | an event restored with its first role as primary keeps its meaning, and the view its consistency |
| CanonicalParser.PassesRebuild | canonical.go:539-624 | on the form of a consistent poset the event, class and edge passes are accepted throughout and rebuild its view |
| CanonicalParser.ParseEvents | canonical.go:539-581 | on a good form every event is accepted; whatever passes is in the poset exactly as restored |
| CanonicalParser.ParseClasses | canonical.go:583-612 | on a good form every class is readable and merges |
| CanonicalParser.ParseEdges | canonical.go:614-624 | on a good form every edge is in order and accepted; whatever passes adds at most the listed edges |
| CanonicalParser.ParseCanonicalPoset | canonical.go:513-631 | accepts exactly the canonical forms of consistent writable posets, each rebuilt exactly as restored |
| CanonicalParser.AcceptedForm | canonical.go:626-630 | what was read, whose form equals what was read, is a consistent writable view with that canonical form |
| CanonicalParser.RoundTrip | canonical.go:408-631 | writing a poset and reading it back gives a valid poset of the same meaning and form exactly when identities are nonempty, observations are named and in strict key order, and no two edges share a key |
| FiringOrders.Degrees | arch/deterministic_map.go:1559-1570 | each firing's degree is the number of firings related to it |
| FiringOrders.TopologicalOrder | arch/deterministic_map.go:1559-1590 | lists every firing once, least key first among those whose predecessors are listed, and reports a cycle exactly when some set of firings blocks itself |
| FiringOrders.StrictOrderNeverStuck | arch/deterministic_map.go:1559-1590 | a strict order never blocks itself, so the cycle error is unreachable for it |
| FiringOrders.ListsInOrder | arch/deterministic_map.go:1559-1590 | the listing extends the relation |
| FiringOrders.ListingUnique | arch/deterministic_map.go:1559-1590 | with distinct keys the listing is determined |
| FiringOrders.DirectPredecessors | arch/deterministic_map.go:1592-1617 | exactly the live predecessors with no live firing strictly between |
| FiringOrders.DirectClosure | arch/deterministic_map.go:1592-1617 | the closure of the direct predecessors is the whole relation on live firings |
| FiringOrders.NotStuckAcyclic | arch/deterministic_map.go:1559-1590 | a relation no set of firings blocks itself in has no cycle |
| FiringOrders.LiveClosureDirect | arch/deterministic_map.go:1592-1617 | an acyclic relation in which of any three steps in a row two neighbouring ones compose has the same direct predecessors as its closure over live firings |
| MapPolicies.MatchInduces | arch/deterministic_map.go:1448-1502 | decides each of the six set-to-set policies for any two matches |
| MapPolicies.FiringRelation | arch/deterministic_map.go:1429-1446 | relates distinct firings exactly when the policy lets one match induce the other |
| PolicyLaws.MaximaIff | arch/deterministic_map.go:1461-1464 | under Maxima one match induces another exactly when each of its events that no other of its events precedes comes before the whole of the other match |
| PolicyLaws.StrongIff | arch/deterministic_map.go:1459-1460 | under Strong exactly when its last events precede the first events of the other |
| PolicyLaws.DiffIff | arch/deterministic_map.go:1497-1498 | under Diff exactly when its last events precede the first of those new to the other |
| PolicyLaws.DominanceIff | arch/deterministic_map.go:1465-1482 | under Dominance exactly when the other has new events and each last event precedes one of them |
| PolicyLaws.OverlookIff | arch/deterministic_map.go:1483-1496 | under Overlook exactly when each first event of the other follows one of its events |
| PolicyLaws.PoliciesCompare | arch/deterministic_map.go:1448-1502 | Strong is stronger than Maxima and Maxima than Overlook; Strong is Diff on disjoint matches, and Diff is stronger than Dominance where the other match has new events |
| PolicyLaws.SingleEvents | arch/deterministic_map.go:1448-1502 | for two different single events all policies but None say that one precedes the other |
| MapPolicies.DominanceAsymmetric | arch/deterministic_map.go:1465-1482 | no two nonempty matches dominate each other, by a latest common event |
| MapPolicies.DominanceReaches | arch/deterministic_map.go:1465-1482 | through a chain of two dominances every event of the first precedes some event new to the last |
| MapPolicies.FiringsStrictlyOrdered | arch/deterministic_map.go:1429-1502 | under None, Strong, Maxima, Dominance and Overlook the firing relation is a strict partial order for any nonempty, possibly overlapping matches |
| MapPolicies.DiffMutualIff | arch/deterministic_map.go:1497-1498 | under Diff two nonempty matches induce each other exactly when one contains the other and precedes the rest of it; equal matches always do |
| MapPolicies.StuckAbsorbs | arch/deterministic_map.go:1497-1498 | every set of firings that blocks itself under Diff holds a match within another that precedes the rest of it |
| MapPolicies.DiffStuckIff | arch/deterministic_map.go:1497-1590 | the Diff relation of any number of matches is cyclic exactly when some nonempty match lies within another and precedes the rest of it |
| MapPolicies.DiffThreeSteps | arch/deterministic_map.go:1497-1498 | Diff is not transitive, but of three induced steps in a row two neighbouring ones compose |
| MapPolicies.CyclicIff | arch/deterministic_map.go:1429-1590 | a cycle is reported exactly under Diff with such a pair of matches, never under another policy |
| MapPolicies.ClosureFits | arch/deterministic_map.go:1592-1617 | without a cycle the closure of the firing relation over live firings is a strict order that reduces to the direct predecessors of the relation itself, under every policy |
| MapBodies.AfterBase | arch/deterministic_map.go:1628-1672 | every event of a materialised body without orphans follows every base cause |
| MapBodies.BeforeFrontier | arch/deterministic_map.go:1673-1678 | every event of a materialised body without stranded outputs is at or before an output without children |
| MapBodies.SameLayerMerges | arch/deterministic_map.go:1717-1741 | events on one layer are unordered, so their class is accepted, and the layering survives |
| MapBodies.PlacedLayers | arch/deterministic_map.go:1717-1741 | a body whose causes and merged classes hold in the range has a layering |
| MapBodies.PeersTogether | arch/deterministic_map.go:1717-1741 | peers of one class have one joined key and are skipped or merged together |
| MapBodies.PlainBodyKeys | arch/deterministic_map.go:1724 | output identities without NUL bytes keep the class keys of a body apart |
| MapBodies.ApartKeepsAll | arch/deterministic_map.go:1717-1741 | with class keys apart every class is merged |
| MapBodies.LayeredIff | arch/deterministic_map.go:1717-1741 | a body has layers exactly when its causes stay acyclic between the classes it merges |
| MapBodies.LayeredPasses | arch/rule.go:747-777 | no merged class of a body with layers holds ordered outputs, so a body with layers and class keys apart passes the per-class check |
| MapBodies.CrossedClasses | arch/rule.go:716-796 | a concrete body of four outputs is well formed and passes the per-class check, yet has no layers |
| MapExecution.OutputCauses | arch/deterministic_map.go:1639-1654 | an output is caused by its local causes, and by the base causes exactly in a root class |
| MapExecution.MergeClasses | arch/deterministic_map.go:1717-1741 | never fails on a body with layers, and on success the range is the old one with exactly the classes merged whose joined key came first; a class whose key an earlier class had is skipped |
| MapExecution.MaterialiseFiring | arch/deterministic_map.go:1619-1681 | succeeds exactly when the classes it merges can be layered; the range is then the old one with every event put after its causes and those classes merged, and exactly the childless events are returned |
| MapExecution.BaseCauses | arch/deterministic_map.go:1191-1197 | the frontiers of the direct predecessors, or Start when they are all empty |
| MapBodyLaws.CausesExactly | arch/deterministic_map.go:1639-1654 | an event is caused exactly by the events of its listed causes, and by each base cause when neither it nor a peer lists any |
| MapBodyLaws.FrontierIff | arch/deterministic_map.go:1647-1678 | exactly the events are on the frontier whose output neither is listed as a cause nor has a peer that is |
| MapBodyLaws.FrontierIsLast | arch/deterministic_map.go:1673-1678 | in the range a body is placed in nothing comes after its frontier |
| MapArtifacts.RelationRecovered | arch/deterministic_map.go:800-838 | one ordered pair of range events of two firings tells that the plan relates the firings, that the earlier event is not stranded and the later no orphan; with every firing sheltered all their events are ordered exactly when the plan relates them |
| MapArtifacts.RelationRecoveredIff | arch/deterministic_map.go:800-838 | the range shows the order of the plan between all firings exactly when no inducing firing has a stranded output and no induced one an orphan |
| MapArtifacts.PolicyRecovered | arch/deterministic_map.go:800-838 | with every firing sheltered the range shows the policy: events of one firing precede those of another exactly when the one match induces the other, under Diff by way of firings with outputs |
| MapArtifacts.StartFirst | arch/deterministic_map.go:1171-1204 | Start precedes everything a map without orphans generates |
| MapArtifacts.StartPrecedesIff | arch/deterministic_map.go:715-722 | Start precedes every other range event exactly when no firing generates an orphan |
| MapArtifacts.ExecuteFiring | arch/deterministic_map.go:1188-1204 | one iteration keeps the range as the plan demands, fails exactly on a body whose merged classes cannot be layered, and records the identities of the direct predecessors |
| MapArtifacts.ExecuteAll | arch/deterministic_map.go:1188-1204 | the loop fails exactly when the merged classes of some body cannot be layered, and otherwise places every firing and records every witness |
| MapArtifacts.Execute | arch/deterministic_map.go:1171-1204 | under every policy the run reports a cycle exactly under Diff with a match absorbed by another, otherwise fails exactly on a body without layers, and otherwise places every firing and records its direct predecessors |
| MapArtifacts.CheckArtifact | arch/deterministic_map.go:715-852 | accepts exactly when Start precedes all, every other range event is claimed by exactly one firing, no consumed domain event is in the range, and the recorded witnesses are the direct predecessors re-derived from the range |
| MapArtifacts.SameDirect | arch/deterministic_map.go:985-1010 | the direct predecessors re-derived from the range are the induced ones when every firing is sheltered |
| MapArtifacts.WitnessesIff | arch/deterministic_map.go:814-838 | without orphans the re-derived witnesses are the recorded ones exactly when no inducing firing has a stranded output |
| MapArtifacts.PlainRunsHarmless | arch/deterministic_map.go:1717-1741 | with output identities free of NUL bytes no class is skipped and nothing is orphaned or stranded |
| MapArtifacts.ExecuteAndCheck | arch/deterministic_map.go:687-865 | a run that finishes passes the artifact check exactly when no domain event it consumed is Start or a generated event, no firing generates an orphan, and no firing whose match induces that of another firing with outputs has a stranded output |
| MapCollisions.CollidingOrphan | arch/deterministic_map.go:1717-1741 | a concrete body of four outputs whose two classes share a key is well formed, passes the per-class check and has layers, and one of its outputs is an orphan |
| MapCollisions.CollidingRunFails | arch/deterministic_map.go:715-722 | a map run of that body finishes and fails its own artifact check |
| Descriptors.GreatestIsFixed | rapide_type.go:1644-1701 | the union of all post-fixed sets of pairs is itself a fixed point of the subtype rules |
| SubtypeChecker.Checker.Subtype | rapide_type.go:1644-1701 | the recursive checker terminates on every finite cyclic graph and leaves exactly the verdict and memo of its specification |
| SubtypeChecker.CheckComplete | rapide_type.go:1644-2107 | no pair of the greatest fixed point is ever refused, and every kept refusal is right |
| SubtypeChecker.GroundedSearch | rapide_type.go:1644-2107 | a search among pairs that lead into no cycle of goals keeps only right verdicts, whether or not its own answer is true |
| SubtypeChecker.CheckSound | rapide_type.go:1644-2107 | where competing choices only ask about pairs that lead into no cycle of goals, a true answer rests only on pairs never refused later |
| SubtypeChecker.CheckerDecides | rapide_type.go:1603-1615 | no member of the greatest fixed point is refused, and the answer is membership in it on every graph where competing choices only ask about pairs that lead into no cycle of goals |
| SubtypeChecker.AcyclicGrounded | rapide_type.go:2020-2038 | on a graph whose goals never lead back overloads are harmless |
| SubtypeChecker.UnambiguousGrounded | rapide_type.go:2020-2038 | so they are where no two choices compete |
| SubtypeChecker.OverloadFreeUnambiguous | rapide_type.go:2020-2038 | members no two of which could stand for one target leave the checker no competing choices |
| SubtypeChecker.RapideTypesEqual | rapide_type.go:1619-1625 | equal types are always found equal, and on graphs with grounded overloads the answer is mutual membership in the subtype relation |
| SubtypeRules.FunctionsIff | rapide_type.go:1703-1753 | one function is a subtype of another exactly when shared parameters have the same name and kind and contravariant types, unbounded type parameters accepting any, its further parameters have defaults, and its result is a subtype |
| SubtypeRules.PlainFunctionsIff | rapide_type.go:1719-1753 | with the same bounded parameters exactly when every parameter type of the other is a subtype of its own and its result a subtype of the result of the other |
| SubtypeRules.EventsIff | rapide_type.go:2040-2064 | one event is a subtype of another exactly when it has every field of the other at a subtype |
| SubtypeRules.EventRecordIff | rapide_type.go:2066-2101 | an event is a subtype of an interface exactly when the interface has only objects and every object not merely required is a field of the event at a subtype |
| SubtypeRules.InterfacesIff | rapide_type.go:1755-2038 | one interface is a subtype of another exactly when it covers every constituent of the other that is not merely required, by kind, name, action mode or region and by type, and the other requires at a subtype whatever it requires itself |
| SubtypeRules.LibrariesIff | rapide_type.go:1661-1675 | a predefined type is a subtype of itself and the empty interface only, and GST of Float |
| SubtypeRules.ReferencesIff | rapide_type.go:1676-1681 | a type-name reference is a subtype of the same reference only |
| SubtypeRules.KindsApart | rapide_type.go:1659-1668 | descriptors of different kinds are related only where an event or a predefined type stands below an interface |
| SubtypeLaws.Reflexive | rapide_type.go:1644-2098 | every well-formed descriptor is a subtype of itself |
| SubtypeLaws.Transitive | rapide_type.go:1703-2098 | subtyping is transitive on graphs without the three gaps, through contravariant parameters and requirements and exact denotations |
| SubtypeLaws.TransitiveIff | rapide_type.go:1703-2098 | subtyping over a graph is transitive exactly when it has no gap: no predefined type beside an empty and a requires-only interface, no event record below an interface below one that requires more than objects, and no function chain that drops a mandatory parameter or reuses an omitted one |
| SubtypeLaws.PlainlyGapless | rapide_type.go:1644-2098 | a graph without defaults whose interfaces never only require (when predefined types occur) and require only objects (when event records occur) has no gap |
| SubtypeLaws.EqualityIsEquivalence | rapide_type.go:1619-1625 | mutual subtyping is an equivalence on graphs without gaps |
| SubtypeLaws.RequirementsBreakTransitivity | rapide_type.go:1661-1666 | with a requirement transitivity fails: a concrete graph of three types |
| SubtypeLaws.DefaultsBreakTransitivity | rapide_type.go:1707-1717 | with a defaulted parameter transitivity fails: a concrete graph of three functions |
| SubtypeOverloads.OverloadsFoolTheChecker | rapide_type.go:2020-2038 | with overloads that lead into a cycle of goals a true answer can be wrong: a concrete graph |
| Cuts.CutContainsBase | arch/consistent_cut.go:218-246 | a prefix-closed set contains what is required exactly when it contains its predecessor closure |
| Cuts.Reachable | arch/consistent_cut.go:403-423 | breadth-first search decides reachability |
| Cuts.AddPredecessorClosure | arch/consistent_cut.go:425-433 | marks everything that leads to an occurrence and nothing else |
| Cuts.AddSuccessorClosure | arch/consistent_cut.go:435-443 | marks everything an occurrence leads to and nothing else |
| Cuts.OpenStep | arch/consistent_cut.go:273-289 | the cuts that complete a selection split exactly into those without the next occurrence and, when its predecessors are selected, those with it |
| Cuts.CutSearch.Enumerate | arch/consistent_cut.go:256-293 | adds the anchor to exactly the cuts that complete the selection, each once, or stops with one cut more than the limit in hand |
| Computations.StateAt | arch/consistent_cut.go:445-482 | succeeds exactly when the versions under every joined Ref key in the cut count up by one, and then gives each key its highest version in the cut |
| Computations.ShowsEveryRefIff | arch/consistent_cut.go:458-481 | the state holds the highest version of every Ref written in the cut exactly when no two of them share a key |
| Computations.RefHistoryIff | arch/consistent_cut.go:458-466 | with keys apart a cut is accepted exactly when the versions of every Ref count up by one |
| Computations.PlainRefKeys | arch/consistent_cut.go:458 | components without NUL bytes keep Ref keys apart |
| Computations.SharedKeyRefused | arch/consistent_cut.go:458-466 | a concrete cut of two created Refs with one key is refused although the history of each is in order |
| Computations.SharedKeyDropped | arch/consistent_cut.go:458-474 | a concrete cut of a created and an assigned Ref with one key is accepted, and its state lacks the created one |
| Computations.AnswersPerRef | arch/consistent_cut.go:294-299 | with keys apart an invalid history is a broken history of some Ref, and every answered state shows every Ref |
| Computations.TopologicalPass | arch/consistent_cut.go:373-394 | lists occurrences after all their predecessors, least identity first among the available ones, and all of them when there is no cycle |
| Computations.LeastFirstSame | arch/consistent_cut.go:373-394 | an acyclic computation has one least-first listing |
| Computations.AugmentedComputation.AddCausalDependency | arch/consistent_cut.go:127-142 | registers exactly dependencies between two distinct registered occurrences; the dependency relation grows by that pair, and every recorded dependency keeps joining two distinct registered occurrences |
| Computations.AugmentedComputation.Validate | arch/consistent_cut.go:322-401 | accepts exactly nonempty acyclic computations whose dependencies join registered occurrences, with the least-first topological listing |
| Computations.AugmentedComputation.Anchors | arch/consistent_cut.go:205-217 | exactly the matched events from which no other matched event is reachable |
| Computations.AugmentedComputation.CutsAt | arch/consistent_cut.go:233-293 | adds exactly the cuts of one anchor and stays within both limits, or stops only on a limit that is exceeded |
| Computations.WithinLimits | arch/consistent_cut.go:253-266 | an enumeration that ended within the limits rules both limits out |
| Computations.AugmentedComputation.ConsistentCutStateWitnesses | arch/consistent_cut.go:184-320 | returns exactly the cuts of the match, each once with exactly its anchors and its state; reports a limit exactly when one is exceeded, and an invalid computation exactly when the request is inadmissible or, within the limits, some cut holds a Ref key whose versions do not count up by one |
| CutLaws.DependenciesExactly | arch/consistent_cut.go:344-370 | exactly the registered dependencies, the nonempty causes, dependencies, predecessor and value source of an operation, and its effects order occurrences |
| CutLaws.MatchCutIff | arch/consistent_cut.go:218-293 | a set is a cut of the match at an anchor exactly when it holds the match and every initial creation, is closed in each of those fields, and holds nothing that follows the anchor |
| CutLaws.AnsweredCuts | arch/consistent_cut.go:294-320 | an answered cut holds with each operation all that it names, and no effect without its operation |
| CutLaws.HistoriesHold | arch/state.go:364-414 | operations taken from per-Ref histories, each naming the one before it, break no history in any cut |
| CutLaws.ValidHistoryIff | arch/consistent_cut.go:445-474 | a cut is accepted exactly when between any two writes of a key the version grows by the number of writes |
| Embeddings.EmbedsStep | arch/behavior_conformance.go:496-520 | a partial embedding extends by an image exactly when it is an unused candidate that keeps the causal order both ways |
| Embeddings.EmbedsPrefix | arch/behavior_conformance.go:496-520 | a whole embedding extends every partial one it agrees with |
| Embeddings.EmbeddingSearch.PreservesCausality | arch/behavior_conformance.go:550-568 | true exactly when the image keeps its order with everything mapped, in both directions |
| Embeddings.EmbeddingSearch.Search | arch/behavior_conformance.go:496-531 | finds a completion, or proves there is none and restores the mapping, or exceeds the bound exactly when the depth-first search would look at more candidates than are left; otherwise counts exactly those it looked at |
| Embeddings.ItemsEmbedShadow | arch/behavior_conformance.go:466-495 | embedding the sorted candidate items is embedding the shadow computation |
| Embeddings.BehaviourEmbeds | arch/behavior_conformance.go:439-533 | answers true exactly when an injective, signature-preserving and order-reflecting map exists; reports the bound exactly when every event has candidates and the search, fewest candidates first, looks at more than allowed; reports a missing action exactly when the first event without candidates names none |
| Embeddings.WalkBounds | arch/behavior_conformance.go:497-531 | a search looks at no more candidates than the product bound, at one per item when it succeeds, and at all of the first item when it fails |
| Embeddings.PlanOrder | arch/behavior_conformance.go:490-498 | the search takes one item per shadow event, by number of candidates, signature and identity |
| Embeddings.FoldIff | arch/behavior_conformance.go:443-462 | folding identifies exactly the names that are equal up to ASCII case |
| Embeddings.InverseKeepsOrder | arch/behavior_conformance.go:550-568 | read backwards an embedding keeps causal order too |
| Embeddings.EmbeddingShares | arch/behavior_conformance.go:466-486 | an image has the parameters of its event and, up to case, the name of its action |
| Choices.UnscheduledResolves | arch/choice.go:39-60 | without a schedule distinct alternatives always resolve |
| Choices.Refuses | arch/choice.go:39-51 | no alternatives, or one listed twice, are refused whatever is scheduled |
| Choices.ResolvesSingle | arch/choice.go:50-52 | a single alternative is taken without a choice point or a record |
| Choices.Resolves | arch/choice.go:52-82 | of several distinct alternatives the scheduled one is taken, and refused if it is not offered, the least when none is scheduled; the point with its ordinal is recorded, and used up if it was scheduled |
| Choices.SetResolves | arch/choice.go:39-82 | the answer depends on the set of alternatives only, not on how they are listed |
| Choices.ChoiceResolver.Resolve | arch/choice.go:39-82 | a single alternative is answered without a record; of several, the scheduled one is chosen if the next ordinal with this domain and these options is scheduled, else the least one, and recorded at that point; it fails exactly on no or repeated alternatives or a scheduled one that is not offered |
| Choices.ChoiceResolver.Finish | arch/choice.go:84-96 | accepts exactly when every scheduled decision was used |
| Choices.ReplayStep | arch/choice.go:39-82 | a choice resolved from a schedule that holds the first run's decision repeats its selection and point |
| Choices.ReplayReproduces | arch/choice.go:39-105 | replaying any adaptive client with the decisions of a first run reproduces every answer and point and leaves no decision unused |
| Clocks.ClockKernel.Deadline | arch/clock.go:474-483 | a deadline is in range and, for a positive offset, ahead of its clock; refused exactly for undeclared clocks and overflow |
| Clocks.ClockKernel.AddScheduled | arch/clock.go:533-539 | appends the actions in order, numbering each owner's strictly upward above all its earlier ones |
| Clocks.NumbersIncrease | arch/clock.go:533-539 | the order numbers of one owner increase strictly and exceed all it was given before |
| Clocks.ClockKernel.DeferInput | arch/clock.go:605-623 | defers exactly inputs with an interval ending in some declared clock's future, waiting for exactly those ends |
| Clocks.ClockKernel.CancelProcessWork | arch/clock.go:541-580 | everything the process had waiting leaves once, nothing else does; the sorted identities of what left are reported, and that of the current suspension even when it had already been resumed |
| Clocks.ClockKernel.NextAdvanceTargets | arch/clock.go:625-649 | exactly the clocks with a deadline, each with its nearest |
| Clocks.OptionsApart | arch/clock.go:651-653 | advance options of different clocks are spelled differently |
| Clocks.AdvanceResolves | arch/clock.go:697-712 | the choice among the advances on offer fails exactly when the schedule names another for the next point |
| Clocks.ReleasedDue | arch/clock.go:721-858 | an advance that passes no deadline releases actions and suspensions exactly at their tick, inputs exactly when their last requirement is met, and leaves the rest waiting |
| Clocks.LoadFalls | arch/clock.go:625-866 | an advance meets deadlines and adds none, and one that meets a deadline lowers the number left |
| Clocks.ClockKernel.MoveClock | arch/clock.go:716-866 | moves one clock strictly forward and releases exactly on time: actions by owner and each owner's as numbered, then inputs, then suspensions by identity; every item is either released or still pending |
| Clocks.ReleasedInOrder | arch/clock.go:731-847 | sorted as the kernel sorts it, released work has actions first and suspensions last, one owner's actions in the order of their numbers |
| Clocks.ClockKernel.AdvanceAndRelease | arch/clock.go:655-866 | never reports a deadlock, takes the next directive as it is or refuses it exactly when it is inadmissible, without one moves the clock the resolver selects among those with a deadline to its nearest, fails exactly when the schedule names an advance that is not on offer, is idle exactly when nothing is left, and each advance spends a directive or lowers the load |
| Clocks.ClockKernel.Drain | arch/clock.go:655-866 | repeated advances terminate, always idle without a schedule and directives, and when they end idle their records have together released every item that was pending, each exactly once |
| Encoding.ValuePrefix | deterministic_event.go:267-400 | no value encoding is a proper prefix of another, and equal encodings mean equal values, through nested lists, maps and records |
| Encoding.Uint64Prefix | deterministic_event.go:396-400 | numbers below 2^64 are written so that equal byte strings headed by them hold equal numbers and equal rests |
| Encoding.TextPrefix | deterministic_event.go:369-372 | length-framed strings are prefix-free |
| Encoding.Buffer.WriteValue | deterministic_event.go:267-367 | appends exactly the value's encoding, whatever the buffer held |
| Encoding.CanonicalFloatIff | deterministic_event.go:384-394 | by sign, exponent and mantissa, exactly the infinities, NaNs and negative zero are not canonical floats |
| Decoding.NumberRead | deterministic_event.go:396-400 | eight bytes read most significant first give the number written |
| Decoding.ValueRead | deterministic_event.go:267-400 | a reader that knows the leading byte of each kind gives back every canonical value and the rest of the input |
| Preimages.NormalizeCauses | deterministic_event.go:250-265 | fails exactly on an empty identity, and otherwise compacts in place to the ascending listing of the set |
| Preimages.ParamsInjective | deterministic_event.go:93-119 | different parameter maps have different canonical values |
| Preimages.EventPreimageInjective | deterministic_event.go:93-153 | equal preimages mean equal profile, model, instance, action, occurrence, cause set, intervals and parameters |
| Decoding.EventRead | deterministic_event.go:93-153 | the preimage of an event reads, in this order, as its version, profile, model, instance, action, occurrence, cause set, intervals if timed, and parameters |
| Preimages.ModulePreimageInjective | module_value.go:45-79 | equal module preimages mean equal allocation provenance |
| Decoding.ModuleRead | module_value.go:66-78 | the preimage of a module reads as profile, model, parent, generator, occurrence and cause set |
| Preimages.PreimagesSeparate | deterministic_event.go:93-153 | untimed events, timed events and modules never share a preimage |
| ObservationQueue.ReadyKeepsClosed | arch/engine.go:3991-4005 | observing an occurrence whose direct causes are observed keeps the observed set closed under every strict cause |
| ObservationQueue.NewEventKeepsClosed | arch/engine.go:2790-2811 | an event caused by existing ones leaves the observed set closed and the old order alone |
| ObservationQueue.SomethingReady | arch/engine.go:3978-3989 | while something is unobserved, some unobserved occurrence has all its causes observed |
| ObservationQueue.Worklist.Enqueue | arch/engine.go:3910-3917 | each view enters the queue once |
| ObservationQueue.Worklist.Emit | arch/engine.go:2790-2811 | a firing adds an event after its causes, queues every view of it once, and keeps the observed order a linear extension |
| ObservationQueue.Worklist.IsReady | arch/engine.go:3991-4005 | true exactly when every member of every directly preceding class is observed |
| ObservationQueue.Worklist.HasReadyItem | arch/engine.go:3978-3989 | true exactly when some queued view has all its causes observed |
| ObservationQueue.Worklist.Options | arch/engine.go:3948-3960 | offers exactly the ready views, or exactly the ready aliases of observed occurrences while there is one, each by its key |
| ObservationQueue.Worklist.ObserveNext | arch/engine.go:2317-2323 | the view the resolver selects among those offered is taken; it had all causes observed, aliases go first, the queue loses exactly that view and the observed order stays a linear extension of the causal order; fails exactly when nothing is ready or the schedule names something else |
| ObservationQueue.Worklist.Progress | arch/engine.go:2256-2260 | if every unobserved occurrence is queued, some view is ready until all are observed |

## Left out

- SubtypeChecker.CheckerDecides: where competing choices lead into a cycle of goals only completeness holds.
- MapArtifacts.Execute: selected matches, their rules' generator choices, parameters and interface checks are taken as given.
- MapArtifacts.CheckArtifact: digests, limits, choice witnesses, firing identities, the consumption of one event twice by one rule, and constraint reports are not checked.
- Snapshots.MergeInBothOrders: Lamport stamps may differ between the two orders; the snapshots must describe one computation and carry the members of their own classes, since a class naming an event that arrives later is refused.
- Replication.Replicate: full snapshots only; incremental snapshots drop edges and are not modelled.
- CanonicalParser.RoundTrip: wall time and which role was primary are not kept by the format.
- Computations.AugmentedComputation.ConsistentCutStateWitnesses: witnesses are a map by cut; their digests and order in the JSON answer are not modelled.
- Embeddings.BehaviourEmbeds: a signature is the folded name with the parameters' canonical encoding, folding is ASCII, and a candidate occurrence is tried once however many views it has.
- Preimages.EventPreimageInjective: stops at the hashed bytes; digests are taken to be injective.
- Choices.ReplayReproduces: a choice point is its domain, ordinal and options; the digest in its printed name is taken to be injective, and schedule parsing is left out.
- Clocks.ClockKernel.AdvanceAndRelease: released work is handed back; creating and queueing its events, interval timings and timing-range choices are left out.
- ObservationQueue.Worklist.Progress: assumes every unobserved occurrence is queued; a clock-deferred input with an undeferred effect breaks that in the engine.
- Posets.Poset.AddEvent: stamps are natural numbers; wrap-around at 2^64 is not modelled.
- The repair scan that rebuilds a missing class index: the invariant rules it out.
- The order inside the worklist's heap: the views offered are sorted, so a sequence stands for it.
- Mutexes, pointer aliasing of event views, defensive copies and error texts.
- JSON bytes, UTF-8 validity, base64, decimal parsing and wall-time syntax; `decodable` stands for them in snapshots.
- Non-finite floats, negative zero and parameter canonicalisation: the encoder is modelled on canonical values.
- Malformed and nil type descriptors, descriptor constructors and their JSON form; a dangling reference conforms to nothing.
- Rule matching, guards and bodies, process statements, startup and the rest of the run loop; a firing is an event added after existing causes.
- Pure queries, exports, DOT and trace output, vector clocks, consumption, membership tables and the asynchronous runtime: easy or unrelated members.
