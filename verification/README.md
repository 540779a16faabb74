# Verified model of the collective path planner

The collective path planner maps a collective (a ring, tree, pairwise or all-to-all exchange among participants) onto a
physical fabric. For every logical edge it must find a number of sibling paths that obey the policy (eligible nodes,
tiers and failure domains, hop and cost limits, disjointness, failure-domain diversity) and that together stay inside
the verified spare capacity of every physical edge. Its contract is strong: a refusal marked "proven infeasible" must be
true, a plan marked "optimal" must be optimal, and every emitted plan must pass an independent checker. Around the
planner sit a durable plan store that is fenced across restarts, a session protocol, a canonical form for requests, a
byte encoding for plans, a request text format and a streaming SHA-256.

This project models those parts in Dafny and proves what they promise, for all inputs and all runs.

## How the model is organised

- Routing: `Paths` states one routing question (a finite directed multigraph with saturating costs and the hop filter)
  and its answers. `ShortestPath`, `EnumeratePaths`, `Reachability`, `MaxFlow` and `DisjointPaths` are the searches;
  `FlowPaths`, `FlowNetworks` and `FlowFamilies` turn a flow back into disjoint paths.
- Siblings: `Candidates`, `PathSets`, `SetEnumeration`, `Families` and `FamilyLaws` cover materialised paths, complete
  answers for a logical edge, their enumeration and the laws of their order.
- Choice: `GlobalAssignment`, `GlobalSearch` and `SolveGlobal` cover the capacity-coherent choice of one answer per
  logical edge.
- Planning: `Requests` (fabric, policy, static filters), `CandidatePool`, `EdgeWork` (what a complete analysis has to
  examine), `EdgeAnalysis`, `Planner`, `PlanChecker`, `PlanAssembly`, `PlanTotals`, `AssembledPlan` and `Assembler` lead
  to the whole-run theorem, `Assembler.PlanRequest`. `CheckerSoundness` says what every accepted plan guarantees.
  `Routings` restates a mapping as plain sets of paths. `PlainRequests`, `Witnesses` and `SaturationWitness` hold the
  requests on which an unconditional promise fails, `DefaultLimits` one that is decided within the default limits.
- Store: `Evictions`, `MakingRoom`, `StoreRuns` (every run with crashes) and `Persistence` (the store object).
- Sessions: `SessionProtocol` (one frame after the other) and `SessionRuns` (every interleaving of reader and worker).
- Encodings: `Sha256`, `MessageDigest`, `WireFormat`, `PlanCodec`.
- Canonical requests: `Collectives`, `LogicalEdges`, `CollectiveBuild`, `Identifiers`, `CanonicalLists`, `Declarations`,
  `FabricBuild`, `RequestBuild`.
- Request text: `TextFields`, `TextTables`, `TextLines` (numbers, lists, assignments, lines), `RequestEntries` (what the
  entries of each section say), `RequestText` (the reader), `RequestEncoding` (the writer), `LineReading`,
  `BlockReading`, `SpecReading`, `RequestRoundTrip` and `RoundTripWitness` (the round trip).
- Shared mathematics: `Saturating`, `Finite`, `Sorting`, `Thinning`.

Lemmas carry `{:induction false}` where Dafny would otherwise add an induction hypothesis, so that every proof stands on
its body.

## Main results

1. `Assembler.PlanRequest`. Every denial is true of the request. An emitted plan always passes the checker, so the
   planner's own refusal of its output is unreachable, and its cost figures are the score the assignment was chosen by.
   `optimal` means that no mapping of the request is better in total cost, domain conflicts and largest path cost; a
   caller can check the condition for this beforehand (`Planner.NothingDropped` and `Planner.Modest`). When all denials
   are collected, a refusal names every logical edge that cannot be served even alone.
   The planner gives up only when there is too much to do. `Planner.Generous` counts the work of the request at hand
   (the edges scanned by complete enumerations, the paths there are, the selections from them, and the choices among
   the retained answers unless the best ones fit together); below the limits the planner never gives up, and under
   `Planner.Decidable` it is a decision procedure: a plan is emitted exactly when every logical edge can be given an
   admissible set of paths such that no verified edge carries more than its spare capacity (`Routings.Routing`).
   Bounds computed from the size of the request alone are sufficient (`Planner.LavishIsGenerous`), and an ordinary
   request is decided within the default limits (`DefaultLimits.EvenByDefault`). Reaching a bound on the enumeration
   costs proof, not feasibility: with one path wanted per logical edge, a path for each and a sufficient expansion
   budget (`Planner.Servable`), no logical edge is ever denied, and with room for one share each a plan is emitted.
2. `ShortestPath.Search`, `EnumeratePaths.Enumeration.Run`, `SetEnumeration.SetSearch.Enumerate` and
   `GlobalSearch.Explore` are each proved against a declarative statement of what they must find, and of the work at
   which they stop early. `DisjointPaths.MaxDisjointPaths` returns the exact maximum up to its limit: a larger family is
   ruled out by a cut, and one of that size is read off the flow (`FlowFamilies.FamilyFromRun`).
3. `CheckerSoundness`: whatever its origin, a plan that passes the checker stays within the spare capacity of every
   verified edge, and each of its paths is a simple walk between its bound nodes that the policy and both bindings
   admit, with the demanded number of siblings, kept apart as demanded.
4. `StoreRuns`: over every run of opens, puts, erasures, closes, failed writes and crashes between any two durable
   steps, each open outranks all earlier ones, and a stored record stays on disk and is indexed again by every rebuild
   that can read it (`StoredStays`); `Persistence.PlanStore` performs exactly such runs.
5. `SessionRuns.InterleavingsAreSequential`: whatever the interleaving, a session answers as if one thread served the
   received frames in order, and each answer is given exactly when it is earned (`AnswersAreEarned`): work is performed
   for greeted, decodable, fresh frames of its kind and nothing else, and every refusal has its own condition.
6. `MessageDigest.HashChunks`: any chunking of a message gives the standard's digest. `PlanCodec.PlanRoundTrip`: the
   plan encoding is canonical and prefix-free.
7. `RequestBuild.RequestOrderIrrelevant`: the order of declaration leaves no trace. Permuting nodes, edges, failure
   domains, bindings, groups, non-ring members or policy sets, or starting a ring elsewhere, gives the same built
   request, or both declarations are refused.
8. `RequestRoundTrip.RoundTripIff`: writing a request that was read and reading the text again returns the same request
   exactly when the written text stays within the reader's bounds and only trees declare a root or a direction.

Where a promise is false of the code, the code is kept and the exact condition is proved:

- Two participants bound to one node. Enumeration marks the source before it looks for the target, so nothing is found
  and "proven infeasible" is reported although the empty path would serve. The verdict is true exactly when the
  endpoints differ, two siblings are wanted or the endpoint is ineligible (`EdgeAnalysis.Honest`): `Analyse` proves one
  half, and also that the edge is reported so when the work stays below the limits; `HonestyIsNeeded` and
  `SameNodeServed` prove the other.
- Answers above the retention cap are dropped without a trace, so a global refusal can be false: on two exchanges over a
  crowded edge and a free detour the planner reports "proven infeasible" although a mapping exists
  (`Witnesses.CapRefusesMappable`); the condition is `Planner.NothingDropped`.
- The fast path of the global solver compares saturated totals: with 5000 dear exchanges the planner calls a result
  optimal that a mapping of the same reported cost beats in conflicts (`SaturationWitness.SaturationMisleads`). Headroom
  is not separable across logical edges: the planner calls a result optimal that another mapping beats in headroom
  (`Witnesses.HeadroomLost`). Below the ceiling the fast path agrees with the full search on the first three objectives
  (`FastAgreesWithSearch`), and requests whose cost cannot reach the ceiling are known beforehand (`Planner.ModestCost`).
- A crash or failed close while the durable header lags lets a stored sequence be reused: stored sequences increase on
  every run without such a loss (`LosslessSequencesIncrease`), and after any such loss the next record repeats one
  (`LossReusesSequence`). Incarnation and sequence together stay unique (`WritesAreDistinct`).
- When the existence probe for the store header fails, the store starts over with its first fences
  (`BlindProbeRepeatsFences`); fences advance exactly when the header is seen and no fence is at its last 64-bit value
  (`FencesAdvance`).
- The duplicate test for group identifiers compares neighbours in (level, identifier) order, so a duplicate on two
  levels can pass (`CrossLevelDuplicateMissed`). A declaration is refused exactly when two groups share an identifier
  and no group sorts strictly between them (`DuplicateRefusedIff`).
- The comment on the text encoder promises a round trip without condition. The writer leaves out the root and direction
  of groups that are not trees, so a ring that declares a root does not come back (`RootedRingIsLost`).

Further observations: `PlannerLimits::max_search_expansions` is not read by the planner, which uses the policy's own
bound; the extra domain test in src/planner.cpp:803-808 is implied by the independence test before it; the checker tests
for undeclared domains only from the second sibling on, and it does not look at an edge's own eligibility, so
`CheckerSoundness` claims neither of accepted plans.

## Model

| member | source | states |
|---|---|---|
| `Saturating.SatAdd` | src/digest.cpp:238-243 | the sum clamped at the ceiling, although it is only formed when it cannot exceed it |
| `Saturating.SatMul` | src/digest.cpp:245-256 | the product clamped at the ceiling |
| `Paths.CostIsClampedSum` | src/planner.cpp:396 | a path's saturating cost is the clamped true sum of its edge costs |
| `Paths.CheapestIsSimple` | src/planner.cpp:315-324 | a walk minimal in (cost, hops) repeats no node, even with zero-cost edges and saturated costs |
| `Paths.WalkYieldsCompliant` | src/planner.cpp:958-992 | where a walk within the limits exists, a compliant simple path exists |
| `ShortestPath.Search` | src/planner.cpp:325-410 | a found result is a walk within the hop and cost limits, minimal in (cost, hops) over all of them and simple; not found without budget exhaustion means none exists |
| `ShortestPath.Expand` | src/planner.cpp:385-407 | relaxing the settled label's edges keeps every queued label realised by a walk and expands the label fully |
| `ShortestPath.Reconstruct` | src/planner.cpp:352-372 | following predecessors returns exactly the walk behind the settled label |
| `ShortestPath.PendingLabel` | src/planner.cpp:325-410 | any walk to an unsettled state passes a queued label that is no dearer, so labels settle in order |
| `ShortestPath.SettledIsFew` | src/planner.cpp:373-384 | a search settles each state (node, hops) at most once, so its expansions are bounded |
| `EnumeratePaths.SweepExact` | src/planner.cpp:431-486 | one sweep records exactly the simple extensions of its prefix with the given number of hops inside the cost limit |
| `EnumeratePaths.SweepDistinct` | src/planner.cpp:431-486 | no path is recorded twice in a sweep |
| `EnumeratePaths.DeepeningExact` | src/planner.cpp:492-512 | for distinct endpoints deepening records exactly the compliant paths up to the depth |
| `EnumeratePaths.DeepeningDistinct` | src/planner.cpp:492-512 | sweeps of different depths never record the same path |
| `EnumeratePaths.DeepeningSameEndpoint` | src/planner.cpp:461-468 | with both endpoints on one node nothing is ever recorded |
| `EnumeratePaths.Enumeration.EnumerateDepth` | src/planner.cpp:431-486 | appends the specified sweep, or a prefix of it when a bound was reached; restores its scratch vectors; counts exactly the edges it scans |
| `EnumeratePaths.Enumeration.Run` | src/planner.cpp:492-512 | `exhaustive` exactly when the scans of all sweeps and the paths there are stay under the bounds; then, for distinct endpoints, the list is every compliant path once and nothing else |
| `EnumeratePaths.ScansBounded` | src/planner.cpp:431-512 | no more paths are recorded than edges scanned, and no more edges scanned than a bound in edges and hops |
| `Reachability.MinHops` | src/planner.cpp:958-992 | the exact minimum number of hops, or a proof that no walk exists |
| `MaxFlow.SendCut` | src/planner.cpp:889-893 | sending along an arc changes the net capacity out of every node set by exactly its crossing |
| `MaxFlow.Levels` | src/planner.cpp:841-854 | breadth-first levels: labelled nodes are those reachable over spare capacity |
| `MaxFlow.NotExhausted` | src/planner.cpp:855-857 | if the sink is labelled, a fresh phase pushes something, so phases make progress |
| `MaxFlow.Network.AddArc` | src/planner.cpp:833-836 | arcs and their reverses stay paired; the capacity across every cut grows by the arc's crossing |
| `MaxFlow.Network.Augment` | src/planner.cpp:879-896 | a push keeps pairing and lowers the net capacity of every separating cut by exactly the amount pushed |
| `MaxFlow.Network.Run` | src/planner.cpp:838-868 | the flow never exceeds a cut, and below the limit the unreachable level set is a cut of exactly that size |
| `MaxFlow.ClosedCut` | src/planner.cpp:855-857 | the labelled side of an unreachable sink has no spare capacity out of it |
| `DisjointPaths.PathCrosses` | src/planner.cpp:903-948 | every compliant path crosses every separating cut, at an arc of its own edges or interior nodes |
| `DisjointPaths.FamilyFitsCut` | src/planner.cpp:903-948 | a family of pairwise disjoint compliant paths is no larger than any cut |
| `FlowPaths.WalkExists` | src/planner.cpp:829-901 | a positive flow has a walk from source to sink over carrying arcs |
| `FlowPaths.FlowWithout` | src/planner.cpp:829-901 | taking one unit off a simple walk leaves a flow that is smaller by one |
| `FlowPaths.Decompose` | src/planner.cpp:829-901 | a flow of value r is r simple walks that together use no arc beyond its flow |
| `FlowNetworks.BuiltCut` | src/planner.cpp:879-896 | the residual network of a flow cuts every node set at its capacity minus the net flow |
| `FlowNetworks.FlowOf` | src/planner.cpp:829-901 | what a run leaves of a network is the residual of a flow within the capacities |
| `FlowFamilies.FamilyFromFlow` | src/planner.cpp:903-948 | the walks of a flow through the network of a question are disjoint compliant paths of the question |
| `FlowFamilies.FamilyFromRun` | src/planner.cpp:903-948 | so a certificate of r comes with a family of r disjoint compliant paths |
| `DisjointPaths.MaxDisjointPaths` | src/planner.cpp:903-948 | below the limit no family of edge- or interior-node-disjoint compliant paths is larger than the certificate, and for distinct endpoints there is one of exactly that size |
| `Candidates.CandidateOrder` | src/planner.cpp:78-86 | the candidate order is a strict weak order |
| `Candidates.CandidatesSeparated` | src/planner.cpp:78-88 | different paths of one question are told apart by it |
| `Candidates.SimplePathAccepted` | src/planner.cpp:517-547 | the simplicity re-check never rejects a simple path within the hop bound |
| `Candidates.WorstEdges` | src/planner.cpp:549-575 | a path is no better evidenced and no wider than its worst edge |
| `PathSets.UsageAmount` | src/planner.cpp:673-718 | the usage table records each edge's load clamped at the ceiling |
| `PathSets.UsageEdges` | src/planner.cpp:673-718 | the table is sorted, has one entry per edge and names verified edges only |
| `PathSets.FitsIffCarried` | src/planner.cpp:758-765 | the footprint test passes exactly when no verified edge is loaded beyond its spare capacity |
| `PathSets.PathSetOrder` | src/planner.cpp:657-671 | the objective on answers is a strict weak order |
| `SetEnumeration.KeepsTheBest` | src/planner.cpp:735-742 | offering one by one with a cap keeps exactly the cap smallest in sorted order |
| `SetEnumeration.TooFew` | src/planner.cpp:772-775 | the cut for too few remaining candidates loses no selection |
| `SetEnumeration.SetSearch.OfferSet` | src/planner.cpp:735-742 | the retained list stays what the cap keeps of everything offered |
| `SetEnumeration.SetSearch.Enumerate` | src/planner.cpp:744-823 | unless step limited, every selection is offered once in order, otherwise a prefix; the counter moves by exactly the selections considered and never past the budget |
| `SetEnumeration.ConsideredBounded` | src/planner.cpp:744-823 | no more selections are considered than the pool has subsets |
| `Families.OffersSound` | src/planner.cpp:744-823 | everything offered is a complete, compatible, affordable family |
| `Families.OffersComplete` | src/planner.cpp:744-823 | every such family over the pool is offered |
| `Families.OffersOnce` | src/planner.cpp:744-823 | and offered once |
| `FamilyLaws.SetHasFamily` | src/planner.cpp:744-823 | every admissible set of paths, stated without order, is represented by a family |
| `FamilyLaws.FamilyIsSet` | src/planner.cpp:744-823 | and every family is such a set |
| `FamilyLaws.LoadCountsUsers` | src/planner.cpp:673-718 | the load on a verified edge is one share per path that uses it |
| `FamilyLaws.SignatureDecodes` | src/planner.cpp:657-671 | the concatenated signature determines the paths, because only a path's last edge enters the target |
| `FamilyLaws.AnswersSeparated` | src/planner.cpp:657-671 | different answers are told apart by the objective order |
| `FamilyLaws.RetentionIgnoresOrder` | src/planner.cpp:735-742 | what is retained does not depend on the order of the offers |
| `FamilyLaws.FamilyIsDisjoint` | src/planner.cpp:605-626 | compatible siblings form a disjoint family in the sense of the flow certificate |
| `GlobalAssignment.AllExact` | src/planner.cpp:1549-1656 | the search tree holds exactly the feasible full assignments that extend its prefix |
| `GlobalAssignment.AllIncreasing` | src/planner.cpp:1549-1656 | in strictly increasing lexicographic order, hence each once |
| `GlobalAssignment.WorkBounded` | src/planner.cpp:1549-1656 | the search is finite, with an explicit bound in levels and alternatives |
| `GlobalSearch.Fits` | src/planner.cpp:1567-1574 | the test passes exactly when every entry fits the remaining capacity |
| `GlobalSearch.Apply` | src/planner.cpp:1557-1561 | subtracts the table without underflow |
| `GlobalSearch.Unapply` | src/planner.cpp:1562-1566 | adds the table back |
| `GlobalSearch.Turn` | src/planner.cpp:1602-1634 | one turn keeps remaining = initial - committed and advances through the tree in order |
| `GlobalSearch.Explore` | src/planner.cpp:1549-1656 | cut short exactly when the budget is below the work; otherwise restores the capacities and returns the first best of all feasible assignments |
| `SolveGlobal.FrontsOptimal` | src/planner.cpp:1499-1547 | the fronts are unbeaten in cost, conflicts and largest path cost below the ceiling |
| `SolveGlobal.FastAgreesWithSearch` | src/planner.cpp:1499-1547 | where the fronts fit together below the ceiling, the fast path and the full search agree on the first three objectives |
| `SolveGlobal.TryFronts` | src/planner.cpp:1502-1518 | the trial succeeds exactly when the fronts are jointly feasible |
| `SolveGlobal.Solve` | src/planner.cpp:1489-1656 | found results are feasible with their true score; exhaustive results are first best, the fronts, or a proof that nothing fits; inconclusive only when the budget is below the work |
| `Requests.TermsValid` | src/planner.cpp:297-313 | a valid request poses a well-formed question for every pair of bindings |
| `Requests.ShareIsLeast` | src/planner.cpp:1847-1850 | the share per path is the least with which all siblings carry the demand |
| `CandidatePool.BlockSet.Reset` | src/planner.cpp:93-119 | clears all blocks, also when the 32-bit generation wraps |
| `CandidatePool.BlockedStillCompliant` | src/planner.cpp:1205-1214 | a path found around blocks is compliant for the original question |
| `CandidatePool.SearchBlocked` | src/planner.cpp:1205-1214 | the search around blocked edges and nodes answers the question without them; without blocks, nothing found means that there is nothing or that the budget ran out |
| `CandidatePool.GreedyChain` | src/planner.cpp:1215-1227 | the chain adds only compliant simple paths, each once |
| `CandidatePool.Detours` | src/planner.cpp:1228-1258 | so do the detours |
| `CandidatePool.SamplePool` | src/planner.cpp:1164-1278 | every pooled candidate is compliant and simple and the pool is in canonical order; it is not empty where a compliant path exists and the search budget lasts, and spends no more than a stated number of expansions |
| `CandidatePool.MaterialiseAll` | src/planner.cpp:1142-1154 | the pool of a complete enumeration is exactly the enumerated paths, in canonical order |
| `EdgeWork.AllPathsExact` | src/planner.cpp:1344-1359 | the paths of a complete enumeration are the compliant ones, each once |
| `EdgeWork.SelectionsBounded` | src/planner.cpp:744-823 | the selections of a complete search are bounded in the size of the question |
| `EdgeWork.OneIsFamily` | src/planner.cpp:1386-1396 | when one path is wanted, a compliant path whose edges carry its share is an answer by itself |
| `EdgeWork.OneAmount` | src/planner.cpp:673-718 | and it takes at most one share of a verified edge |
| `EdgeAnalysis.IneligibleEndpoint` | src/planner.cpp:1315-1324 | an ineligible endpoint rules out every family |
| `EdgeAnalysis.NoCompliantPath` | src/planner.cpp:1326-1343 | so does the absence of a compliant path |
| `EdgeAnalysis.FlowBound` | src/planner.cpp:1400-1413 | so does a flow certificate below the wanted number |
| `EdgeAnalysis.SameNodeOnePath` | src/planner.cpp:328-331 | on one node only the empty path is compliant, so two siblings cannot exist |
| `EdgeAnalysis.SameNodeServed` | src/planner.cpp:461-468 | on one eligible node a single path is always possible |
| `EdgeAnalysis.HonestyIsNeeded` | src/planner.cpp:1367-1383 | a true "infeasible" implies the side condition, so the condition is exact |
| `EdgeAnalysis.EnumerateFor` | src/planner.cpp:1344-1359 | the trimmed enumeration is exhaustive exactly when no bound interfered |
| `EdgeAnalysis.Certified` | src/planner.cpp:1400-1413 | the certificate rules the edge out exactly when every family of disjoint compliant paths is too small |
| `EdgeAnalysis.AmpleIsEnough` | include/cpath/planner.hpp:94-124 | limits above a bound on the size of the question always leave room for its work |
| `EdgeAnalysis.ChooseSets` | src/planner.cpp:1386-1443 | an empty result is called proven only when it is; with a whole pool the verdict is conclusive when the selections stay below their limit |
| `EdgeAnalysis.Analyse` | src/planner.cpp:1283-1443 | "proven infeasible" is true whichever branch produced it, and given whenever no walk is short enough; returned alternatives are answers, the first unbeaten, and all the best ones when exhaustive; the verdict is conclusive when the work of this question stays below the limits; otherwise one wanted path that exists is still found while the expansion budget lasts |
| `Planner.EdgeDenialIsFinal` | src/planner.cpp:1852-1884 | a proven denial of one logical edge rules out every mapping of the request |
| `Planner.AnalyseAll` | src/planner.cpp:1852-1884 | every collected denial is true, there is one for every refused logical edge (or the first only), and nothing is left undecided when the work stays below the limits |
| `Planner.FrontsBeatMapping` | src/planner.cpp:1499-1547 | the fronts beat every mapping of the request, retained or not |
| `Planner.BestBeatsMapping` | src/planner.cpp:1549-1656 | the first best beats every mapping when nothing was dropped |
| `Planner.GlobalDenialTrue` | src/planner.cpp:1891-1913 | a global "proven infeasible" rules out every mapping when nothing was dropped |
| `Planner.OptimalClaim` | src/planner.cpp:2001 | what `optimal` means for either path of the solver |
| `Planner.RefusalIsFinal` | src/planner.cpp:1852-1913 | a refusal that is not for want of search means that no mapping exists |
| `Planner.PlanCollective` | src/planner.cpp:1783-1913 | the whole run up to the chosen mapping: true denials that name every unservable logical edge, a feasible mapping with its score, optimality, a decision when the work stays below the limits, and a mapping for every servable request without contention |
| `Planner.LavishIsGenerous` | include/cpath/planner.hpp:94-124 | limits above bounds computed from the size of the request are never reached |
| `Planner.UnservedIsNamed` | src/planner.cpp:1852-1884 | a logical edge that cannot be served even alone is among the refused ones |
| `Planner.FrontsFit` | src/planner.cpp:1499-1547 | with one path per logical edge and room for one share each, the best answers fit together |
| `Planner.ModestCost` | src/planner.cpp:1575-1590 | the cost of no mapping reaches the ceiling when the number of logical edges times the paths wanted times the largest path cost stays below it |
| `Witnesses.CapHidesFeasibility` | src/planner.cpp:735-742 | with one alternative retained, no choice from a complete analysis of the crowded request fits |
| `Witnesses.CapRefusesMappable` | src/planner.cpp:1891-1913 | the planner refuses that request as proven infeasible although it has a mapping |
| `Witnesses.HeadroomIsNotSeparable` | src/planner.cpp:1499-1547 | the fronts of every complete analysis of the even request leave less headroom than another mapping of the same cost |
| `Witnesses.HeadroomLost` | src/planner.cpp:1499-1547 | the planner calls that result optimal |
| `SaturationWitness.SaturationBreaksFronts` | src/planner.cpp:1499-1547 | the fronts of every complete analysis of the costly request saturate with one conflict per logical edge |
| `SaturationWitness.SaturationMisleads` | src/planner.cpp:1499-1547 | the planner calls that result optimal although a mapping of the same saturated cost has no conflict |
| `DefaultLimits.EvenByDefault` | include/cpath/planner.hpp:94-124 | within the default limits the planner emits an optimal plan for the even request |
| `Routings.MappingIsRouting` | src/planner.cpp:1549-1656 | the paths of a mapping are admissible sets that together stay within the spare capacity of every verified edge |
| `Routings.RoutingIsMapping` | src/planner.cpp:1549-1656 | and every such choice of paths is a mapping |
| `Routings.MappableIffRoutable` | src/planner.cpp:1783-1913 | a request has a mapping exactly when it can be routed |
| `PlanAssembly.PathIsOk` | src/plan.cpp:439-575 | a materialised compliant path passes every check on a single path: contiguity, simplicity, filters, signature |
| `PlanAssembly.SiblingsAreOk` | src/plan.cpp:586-622 | compatible candidates pass every check between siblings |
| `PlanTotals.AllocationIsCommitted` | src/plan.cpp:651-698 | the recomputed allocation of a verified edge is what the assignment committed there, within its spare capacity |
| `PlanTotals.AllocationPositive` | src/planner.cpp:1974-1979 | an edge has an allocation exactly when a path crosses it and shares are positive |
| `PlanTotals.TableExact` | src/planner.cpp:1974-1979 | the allocation table lists exactly the edges with an allocation, in order |
| `PlanTotals.AllocationsAreOk` | src/plan.cpp:651-698 | the table passes the checker's recomputation |
| `PlanTotals.CostsAreScore` | src/planner.cpp:1981-1988 | the plan's cost statistics are the score the assignment was chosen by |
| `AssembledPlan.SiblingCount` | src/plan.cpp:577-585 | every logical edge has exactly the requested number of paths |
| `AssembledPlan.BottleneckSeen` | src/planner.cpp:1986-1987 | the planner's test for an unset bottleneck agrees with the checker's |
| `AssembledPlan.AssembledIsValid` | src/plan.cpp:405-732 | what the assembly loop leaves behind passes the whole checker (what that guarantees: `CheckerSoundness`) |
| `CheckerSoundness.CapacityKept` | src/plan.cpp:651-698 | in every accepted plan the hops over a verified edge, each with its share, stay within its spare capacity |
| `CheckerSoundness.PathsTravel` | src/plan.cpp:439-575 | every path of an accepted plan is a simple walk between its bound nodes over edges the policy and both bindings admit |
| `CheckerSoundness.PathsCounted` | src/plan.cpp:577-585 | every logical edge of an accepted plan has exactly the requested number of paths |
| `CheckerSoundness.SiblingsApart` | src/plan.cpp:586-622 | siblings of an accepted plan keep the demanded disjointness and diversity |
| `Assembler.Draft.Route` | src/planner.cpp:1951-1959 | spells out the hops and charges each edge its share |
| `Assembler.Draft.AddPath` | src/planner.cpp:1940-1971 | appends the path and keeps totals, allocations and stages those of the paths so far |
| `Assembler.AllocationTable` | src/planner.cpp:1974-1979 | the emitted table |
| `Assembler.Assemble` | src/planner.cpp:1915-1999 | the assembled plan passes the checker |
| `Assembler.PlanRequest` | src/planner.cpp:1783-2004 | the whole-run theorem (main result 1) |
| `Evictions.QueueExact` | src/persistence.cpp:651-659 | the eviction queue lists the records once each, oldest first by (sequence, digest) |
| `Evictions.OldestGo` | src/persistence.cpp:660-667 | every evicted record is older than every survivor |
| `Evictions.AddSizes` | src/persistence.cpp:647-650 | the 64-bit total is the true total modulo 2^64 |
| `MakingRoom.ProjectedBytes` | src/persistence.cpp:647-650 | the projected total is that of the store with the record replaced, modulo 2^64, even when the difference wraps |
| `MakingRoom.ChooseVictims` | src/persistence.cpp:643-673 | victims are the shortest oldest-first prefix that suffices; refused exactly when the record fits no store at all |
| `MakingRoom.MadeRoomFits` | src/persistence.cpp:638-706 | from any state the store ends within both bounds, holds the new record, keeps the rest unchanged, and gave up only older records |
| `StoreRuns.OpensAreFenced` | src/persistence.cpp:507-574 | on every run each successful open returns epoch and incarnation strictly above all earlier ones, and no record outranks the header |
| `StoreRuns.FencesAdvance` | src/persistence.cpp:542-565 | fences advance exactly when the header is seen and neither is at its last value |
| `StoreRuns.BlindProbeRepeatsFences` | src/persistence.cpp:542-565 | a failing existence probe repeats the first fences |
| `StoreRuns.WritesAreDistinct` | src/persistence.cpp:616-711 | incarnation and sequence together identify a write, whatever crashed in between |
| `StoreRuns.WritesAreSequenced` | src/persistence.cpp:616-711 | writes are ordered by session and, within one, by sequence |
| `StoreRuns.LosslessSequencesIncrease` | src/persistence.cpp:682-707 | stored sequences strictly increase unless a lagging header was lost |
| `StoreRuns.LossReusesSequence` | src/persistence.cpp:682-707 | after any such loss the next record repeats a stored sequence |
| `StoreRuns.IndexIsDurable` | src/persistence.cpp:464-493 | on every run each indexed record is on disk as indexed |
| `StoreRuns.WriteLands` | src/persistence.cpp:682-707 | a successful write puts the record on disk and into the index as it was given |
| `StoreRuns.RebuildExact` | src/persistence.cpp:464-493 | a rebuild indexes exactly the records on disk that it can read, as they are |
| `StoreRuns.RecordSurvives` | src/persistence.cpp:464-711 | a record stays on disk through every step that does not overwrite, unlink or drop it |
| `StoreRuns.StoredStays` | src/persistence.cpp:464-711 | a record made durable is on disk in every later state until then, whatever crashed, and every later rebuild that can read it indexes it as written |
| `StoreRuns.IndexKeeps` | src/persistence.cpp:616-711 | an indexed record stays indexed in a session unless it is overwritten, unlinked or dropped |
| `Persistence.PlanStore.Open` | src/persistence.cpp:507-574 | is one of the modelled runs; succeeds exactly when the writes and the listing do; a record is then indexed exactly when it is on disk and readable, as it was written |
| `Persistence.PlanStore.Put` | src/persistence.cpp:616-711 | is one of the modelled runs; the outcome of every branch, the new index, and the record on disk as it was given when it was stored |
| `Persistence.PlanStore.Erase` | src/persistence.cpp:810-827 | removes exactly the named record |
| `Persistence.PlanStore.EnforceBounds` | src/persistence.cpp:845-879 | drops the shortest oldest-first prefix that restores both bounds, or stops at the first file that stays |
| `Persistence.PlanStore.Close` | src/persistence.cpp:576-585 | closes whether or not the header could be saved |
| `SessionProtocol.ActsExact` | src/server.cpp:368-700 | an answer is given exactly when it is earned: work, greeting, pong, shutdown granted or unsent, and each refusal have their own condition on the frame and those before it |
| `SessionProtocol.OneIsEarned` | src/server.cpp:368-700 | every frame earns exactly one answer |
| `SessionProtocol.AcceptedIncrease` | src/server.cpp:395-410 | sequences of frames not refused as replays strictly increase |
| `SessionProtocol.EffectsNeedGreeting` | src/server.cpp:464-696 | nothing takes effect before an accepted hello, and no shutdown without the current epoch and an acknowledgement sent |
| `SessionProtocol.GreetedOnce` | src/server.cpp:425-434 | a session is greeted at most once |
| `SessionRuns.InterleavingsAreSequential` | src/server.cpp:263-366 | every interleaving answers as one thread would, keeps the inbox bound and the arrival order |
| `SessionRuns.AnswersAreEarned` | src/server.cpp:263-700 | in every interleaving the i-th answer is the one its frame earned |
| `SessionRuns.HandledInOrder` | src/server.cpp:326-366 | the i-th frame handled is the i-th received: in order, at most once |
| `SessionRuns.SessionIsSafe` | src/server.cpp:263-366 | the protocol's promises at every point of every interleaving |
| `SessionRuns.StopIsEarned` | src/server.cpp:355-362 | a session stops the coordinator only by a granted shutdown |
| `Sha256.ExpandSchedule` | src/digest.cpp:110-121 | computes the message schedule of section 6.2.2 of FIPS 180-4 |
| `Sha256.RunRounds` | src/digest.cpp:123-148 | computes the 64 rounds |
| `Sha256.Compress` | src/digest.cpp:109-158 | computes the compression function |
| `MessageDigest.PadInjective` | src/digest.cpp:185-196 | padding loses nothing: equal padded messages are equal |
| `MessageDigest.Hasher.Update` | src/digest.cpp:160-183 | after any update the object stands for the concatenated message |
| `MessageDigest.Hasher.PadZeros` | src/digest.cpp:187-192 | adds the smallest number of zeros that leaves room for the length field |
| `MessageDigest.Hasher.Finish` | src/digest.cpp:185-208 | the chaining value over the padded message of section 5.1.1, for every length (the length field modulo 2^64) |
| `MessageDigest.HashChunks` | src/digest.cpp:160-208 | any sequence of updates gives the fold of compression over the padded concatenation |
| `WireFormat.ParseWritten` | src/buffer.cpp:20-205 | whatever is written is read back, and nothing after it is touched |
| `WireFormat.ParsedIsWritten` | src/buffer.cpp:83-205 | everything accepted is the encoding of an admitted value |
| `WireFormat.PrefixFree` | src/buffer.cpp:83-205 | no accepted encoding is a proper prefix of another |
| `PlanCodec.ByteReader.U64` | src/buffer.cpp:121-132 | two halves make the little-endian number; a failure is never cleared |
| `PlanCodec.ByteReader.ReadItems` | src/plan.cpp:293-316 | decode loops that go on after a failure neither clear it nor change an accepted value |
| `PlanCodec.ByteReader.ReadVal` | src/plan.cpp:249-403 | the sticky reader accepts and returns exactly what the plain parser does |
| `PlanCodec.DecodePlan` | src/plan.cpp:249-403 | decoding is that parser plus the end, path-count and digest checks |
| `PlanCodec.PlanRoundTrip` | src/plan.cpp:186-242 | decode and encode are mutually inverse between consistent plans within bounds and accepted byte strings |
| `PlanCodec.PlanPrefixFree` | src/plan.cpp:249-403 | appending anything to an accepted plan makes it unacceptable |
| `Collectives.RotateRing` | src/collective.cpp:19-25 | puts the smallest member first |
| `Collectives.RotationsAgree` | src/collective.cpp:16-25 | all rotations of a ring have one canonical form |
| `Collectives.RepeatsIff` | src/collective.cpp:260-273 | sorting and comparing neighbours finds a repeated participant exactly when there is one |
| `Collectives.OrderIrrelevant` | src/collective.cpp:276-287 | the declaration order of groups does not matter, for acceptance or result |
| `Collectives.DuplicateRefusedIff` | src/collective.cpp:276-287 | refused exactly when two groups share an identifier and none sorts strictly between them |
| `Collectives.SameLevelClash` | src/collective.cpp:282-287 | equal identifiers on one level are always refused |
| `Collectives.DistinctIdsPass` | src/collective.cpp:282-287 | distinct identifiers are never refused |
| `Collectives.CrossLevelDuplicateMissed` | src/collective.cpp:282-287 | an accepted declaration with one identifier on two levels |
| `LogicalEdges.GroupEdges` | src/collective.cpp:27-99 | a group's edges are exactly those its pattern means; malformed groups are refused |
| `LogicalEdges.Derive` | src/collective.cpp:290-297 | all groups together |
| `LogicalEdges.ThinIsCanonical` | src/collective.cpp:305-330 | after sorting and de-duplication each implied pair appears once, strictly sorted, at the lowest level of any group implying it |
| `CollectiveBuild.DeclarationOrderIrrelevant` | src/collective.cpp:231-351 | permuting groups or members, or rotating rings, leaves the canonical form unchanged, and so does the reverse |
| `CollectiveBuild.SameCollective` | src/collective.cpp:210-351 | such declarations build the same collective or are both refused |
| `CollectiveBuild.BuiltStays` | src/collective.cpp:210-351 | building the canonical groups again changes nothing |
| `CollectiveBuild.CanonicalUnique` | src/collective.cpp:210-351 | a declaration has at most one canonical form |
| `CollectiveBuild.CanonicalValidates` | src/collective.cpp:383-417 | the final re-check and the self-loop test never fail |
| `CollectiveBuild.Build` | src/collective.cpp:210-351 | returns the canonical form within the limits, and refuses exactly when there is none |
| `Identifiers.PositionsInOrder` | src/ids.cpp:10-35 | identifiers, named by their position, compare in byte order |
| `Identifiers.ReadNameExact` | src/ids.cpp:37-70 | a text is read as the one identifier that is written so, exactly when it meets the grammar |
| `CanonicalLists.RankedIff` | src/fabric.cpp:118-125 | sorting and comparing neighbours refuses exactly the lists with a repeated identifier |
| `CanonicalLists.RankedAgrees` | src/fabric.cpp:118-125 | the order of declaration changes neither the sorted list nor the refusal |
| `CanonicalLists.SortUniqueAgrees` | src/policy.cpp:12-16 | a sorted set without repetitions depends only on its elements |
| `FabricBuild.AcceptedIff` | src/fabric.cpp:92-271 | a fabric is accepted exactly when its declaration is within the limits, named properly, free of repeated identifiers, resolves every reference and nests every domain in a broader one |
| `FabricBuild.FabricOrderIrrelevant` | src/fabric.cpp:118-265 | permuted nodes, edges and domains build the same graph or are both refused |
| `FabricBuild.GraphStays` | src/fabric.cpp:92-271 | building the declaration read off a graph gives the graph back |
| `FabricBuild.GraphValidates` | src/fabric.cpp:379-478 | the final order checks never fail, nor does the bound on containment chains |
| `FabricBuild.BuildIndex` | src/fabric.cpp:273-295 | the index finds every declared identifier and nothing else |
| `FabricBuild.CheckDomains` | src/fabric.cpp:109-146 | passes exactly when every parent is declared and broader |
| `FabricBuild.WalkChain` | src/fabric.cpp:148-168 | follows the parents to the root within the bound |
| `FabricBuild.CheckEdges` | src/fabric.cpp:195-237 | passes exactly when every edge is well formed and resolves |
| `FabricBuild.BuildFabric` | src/fabric.cpp:92-271 | returns the canonical graph or refuses, as specified |
| `RequestBuild.PolicyAgrees` | src/policy.cpp:115-120 | policy sets listed otherwise give the same policy |
| `RequestBuild.BindingsAgree` | src/request.cpp:143-203 | permuted bindings, their sets listed otherwise, give the same bindings or are both refused |
| `RequestBuild.RequestOrderIrrelevant` | src/request.cpp:117-214 | permuted declarations build the same request or are both refused (main result 7) |
| `RequestBuild.RequestStays` | src/request.cpp:117-214 | building the declaration read off a request gives the request back |
| `RequestBuild.BuildBindings` | src/request.cpp:143-203 | sorts, de-duplicates and checks the bindings as specified |
| `RequestBuild.BuildRequest` | src/request.cpp:117-214 | returns the canonical request or refuses, as specified |
| `TextFields.ParseU64` | src/dsl.cpp:25-44 | accepts exactly the canonical decimals below 2^64 |
| `TextFields.SplitList` | src/dsl.cpp:69-85 | the items join to the text and hold no separator |
| `TextFields.JoinInjective` | src/dsl.cpp:69-85 | joined items determine the items, so splitting inverts joining |
| `TextFields.ReadAssignments` | src/dsl.cpp:96-131 | the scanner is the specified reader |
| `TextFields.AcceptedEntries` | src/dsl.cpp:96-131 | accepted lines hold proper assignments with distinct keys |
| `TextFields.RenderedLineReadsBack` | src/dsl.cpp:96-131 | assignments separated by blanks read back as the same assignments |
| `TextFields.SplitFirst` | src/dsl.cpp:255-260 | the lines of a text are those between its newlines |
| `TextTables.RowReadsBack` | src/dsl.cpp:133-165 | the values written under a table of distinct keys are found again, and no key is unknown |
| `TextTables.TailReadsBack` | src/dsl.cpp:96-131 | an entry's assignments, each after a blank, read back |
| `TextLines.TrimLine` | src/dsl.cpp:267-278 | drops one carriage return and the surrounding blanks |
| `TextLines.LinesReadBack` | src/dsl.cpp:253-306 | lines written one after the other are read as those lines and an empty one |
| `RequestEntries.CollectiveReadsBack` | src/dsl.cpp:448-485 | the collective's line returns its identifier, kind and demand |
| `RequestEntries.GroupReadsBack` | src/dsl.cpp:487-539 | a group's entry returns the group, without root and direction unless it is a tree |
| `RequestEntries.DomainReadsBack` | src/dsl.cpp:541-564 | a domain's entry returns the domain |
| `RequestEntries.NodeReadsBack` | src/dsl.cpp:566-613 | a node's entry returns the node with its placement |
| `RequestEntries.EdgeReadsBack` | src/dsl.cpp:615-675 | an edge's entry returns the edge |
| `RequestEntries.BindingReadsBack` | src/dsl.cpp:677-714 | a binding's entry returns the binding |
| `RequestEntries.PolicyFieldReadsBack` | src/dsl.cpp:716-791 | a line of the policy section sets its field and leaves the others |
| `RequestEntries.ForbiddenReadsBack` | src/dsl.cpp:793-839 | a line of the forbidden section sets its list |
| `RequestText.ReadText` | src/dsl.cpp:245-311 | the reader is the specified run over the lines of the text |
| `RequestText.ReadLine` | src/dsl.cpp:262-305 | one line: bound, trimming, comments, section, banner, header or entry |
| `RequestText.ReadRequest` | src/dsl.cpp:861-872 | reading followed by building |
| `RequestEncoding.AppendList` | src/dsl.cpp:850-857 | the items joined by commas |
| `RequestEncoding.WriteRequest` | src/dsl.cpp:874-1084 | writes the specified lines in order |
| `LineReading.HeaderStep` | src/dsl.cpp:340-371 | a written header line sets its generation |
| `LineReading.SectionStep` | src/dsl.cpp:373-398 | a section header is accepted once |
| `LineReading.NamedStep` | src/dsl.cpp:400-441 | an entry is taken as the identifier and the row it was written from |
| `LineReading.FieldsStep` | src/dsl.cpp:400-485 | so is a line of fields |
| `SpecReading.SpecRuns` | src/dsl.cpp:245-311 | the reader takes the whole written text and ends with the declaration it was written from |
| `RequestRoundTrip.ParsedIsReadable` | src/dsl.cpp:241-848 | what is read has 64-bit generations, distinct group identifiers and consistent placements |
| `RequestRoundTrip.WrittenReads` | src/dsl.cpp:929-1084 | what the reader makes of a written request, or that it refuses it for its size |
| `RequestRoundTrip.RoundTripIff` | src/dsl.cpp:861-1084 | the request comes back exactly under the stated condition (main result 8) |
| `RoundTripWitness.RootedRingIsLost` | src/dsl.cpp:946-962 | a text whose request does not come back |

## Left out

- Sockets, wake-up pairs, file-system calls, fsync and the platform branches: a durable write is one step that happens or does not; which one is an argument.
- Liveness of coordinator shutdown, session acceptance, statistics counters and the typed wire payload codecs.
- The command line, daemon, JSON, explanation and denial messages, conflict codes, witness lists and reject counters: only the kind of a denial is modelled.
- The quality of the sampled candidate pool: only that each candidate is compliant and simple, and that there is one when a path exists.
- Optimality in headroom and the final tie-break of the fast path: the code does not deliver them.
- Freshness, revalidation, record headers and timestamps of the store, and more than one process on one store directory.
- Which error is reported for a refused declaration or text: a refusal is one value, and with several faults the code reports the first it meets.
- The canonical byte encoding and digest of a request, which are functions of the built request, and the text of an emitted plan.
- The numbering of nodes, edges and participants by which the planner addresses a built request.
- `PlanChecker.ValidatePlan` is a predicate: the order of its error reports and its digest and generation comparisons are not modelled.
- Folds over a fixed list that only compute a value (make_candidate, build_path_set, edge_cost_of) are functions; std::sort, std::unique and std::rotate are functions with the library's meaning.
- The priority queue of the shortest-path search is a set from which a least label is taken, and the hop filter is evaluated once per edge instead of at every visit.
- Assembler.Draft.Route: a hop names its edge and nodes by index instead of identifier.
- Persistence.PlanStore.Put: the compatibility tests before the store is touched are one argument, and the record size is an argument.
- Sha256.Compress: the streaming object takes the compression function as a value, and Compress is proved to compute that function.
- WireFormat.ParseWritten: writing is a function of the layout and the value instead of appending to a buffer, and an encoded plan is a row of fields in encoding order.
- CRC-32, FNV-1a and hexadecimal digests; collision resistance is not a topic of this model.
