# Verified model of the timetable solver

The program schedules university courses in three layers. The validator checks each course offering, groups the
offerings of one course into a cohort and emits one candidate per cohort. The structural analysis builds a graph of
sessions and block starts, prunes it with AC-3 and decides with Hopcroft-Karp whether all sessions can get distinct block
starts. The genetic search then seeds, crosses, mutates and repairs whole timetables and keeps the fittest.

This project models the four parts that carry the difficulty, and proves what they promise.

| part | modules |
|---|---|
| slot topology | `Timetable`, `SameDay`, `Completeness`, `Grid` |
| structural feasibility | `Bipartite`, `Ac3`, `HopcroftKarp`, `Ssa`; what the verdict says about timetables: `Admissibility`, `Guarantee`, `Exactness`, `Limits` |
| evaluation, repair and evolution | `Genes`, `Fitness`, `Penalties`, `WellFormed`, `Operators`, `Mutation`, `Evolution`, `Perfect`, `Reachable`, `Weights`; repair: `RepairSession`, `Outcomes`, `Repair`, `Seats`, `LastResort`, `CleanInput`, `Spoiled` |
| validation | `Candidates`, `Checks`, `Cohorts`, `Validator`, `Handover` |

`Prelude` holds options, counting facts, the stable sort and the shuffle.

The main results:

- **Verdict.** `Ssa.RunSSA` answers FEASIBLE if and only if the graph *before* pruning has a distinct block start for every
  session. Its ingredients are the maximality of Hopcroft-Karp by a vertex cover, the progress of every phase, real
  termination measures, and AC-3 as a greatest fixpoint that never makes a maximum matching smaller. When AC-3 stops the
  analysis is said in the candidates' own terms, their rooms and the lecturers of their pools (`Ssa.ArcIff`,
  `Ssa.SupportIffChoice`), and a cohort's sessions list exactly the lecturers of its offerings
  (`Handover.NodesListTeachers`).
- **What the verdict means.** All of it is about the answer that `Ssa.RunSSA` gives, so after static exclusion has taken the
  slots of locked rooms away. For a set of session durations, FEASIBLE guarantees a collision-free timetable of the given
  candidates if and only if every duration is one slot (`Guarantee.FeasibleGuaranteesIffUnit`). With rooms, lecturers and
  sessions given, INFEASIBLE proves that there is no timetable, for every choice of slots that leaves each candidate one, if
  and only if no legal rooms and lecturers let two sessions meet and no flexible candidate names a fixed candidate's room
  (`Exactness.InfeasibleProvesIff`).
- **Repair.** `RepairSession.MayRepair` says what the repair of a session may return; for a candidate with a full block it is
  exact over all orders of the shuffles, and every order is a possible shuffle (`Prelude.MayShuffleIff`). For one lecturer
  the result is free of clashes with other genes and off the slots of earlier siblings if and only if some allowed room,
  full block and lecturer of the pool are; and no result adds a violation if and only if the session is clean, or such a
  placement exists, or no block of the last resort is costlier (`LastResort.OneLecturerNeverRaisesIff`;
  `LastResort.RepairNeverRaisesIff` for any number of lecturers). After `Repair.RepairChromosome` the violations counted by
  a different module are at most the bookings of the sessions that ended in the last resort, and none if no session did. A
  violation-free timetable of full-length sessions whose siblings share no slot is kept (`CleanInput.SpreadTimetableIsKept`);
  one whose siblings share a slot can be spoiled by every run (`Spoiled.RepairSpoils`). A session whose only clash is through
  its lecturers keeps room and slots when others of the pool are free (`Outcomes.SwapInPlace`), and the capacity pass leaves
  a gene with enough seats, or with no move to a larger free room, or with a seat more for each session
  (`Seats.RepairSeats`).
- **Evolution.** In every population of every run the loci stay aligned, locked rooms stay, sessions stay gap-free where the
  timetable allows it, lecturers stay legal, and the total teaching load is conserved. The elites are the fittest of the
  ranking and are passed on as the same objects; genes and sessions of all other individuals are new, so writing a room of
  a session in place cannot reach an elite, and with elitism the best fitness never falls. Every individual of every
  population is the result of a repair, so its collisions are bookings of last resorts (`Reachable.ViolationsAreLastResorts`).
  A run ends early exactly at the first generation whose best individual costs nothing, or violates a hard constraint while
  the baseline of the stagnation test is 100 generations old (`Evolution.RunGA`); so no run of violating generations exceeds
  a hundred million (`Evolution.ViolatingRunEnds`). `Perfect.PerfectIff` says what costing nothing means.
- **Topology.** The slot finder, the same-day selector and the validator's run counter are three different loops that agree:
  the fragmentation flag is raised exactly when the finder returns nothing. The selector takes a day's maximal runs longest
  first, so no choice of that day uses fewer runs (`SameDay.FewestRuns`). The finder returns all back-to-back sequences
  if and only if each slot comes directly before the one that starts as it ends, in the order of start and list.
- **Validation.** Each offering gets exactly one verdict, the sibling lists partition the accepted offerings, session counts
  are least and within the cap, a rejection names the first defect in the order of the checks
  (`Checks.RejectedForFirstDefect`), and the emitted candidates satisfy what the search and the structural analysis require.

## Reading the model

- Random draws and shuffles are arbitrary choices, so every result holds for every run. The iteration order of a set is
  arbitrary too.
- Times are integers of which only order and equality matter. Fitness values and the average are reals.
- A session is an object whose room can be assigned, a gene is an object whose session list can be assigned, and
  chromosomes are sequences of gene objects shared between generations. `Genes.Value` reads off a chromosome's value. A
  method without `modifies` cannot write an object it was given, which is how the operators' restraint is stated.
- In `Evolution.RunGA` the ghost results record every population, the best individual of each generation and how the run
  ended.
- The inputs are assumed to be what the database guarantees: non-negative ids, distinct offering, slot and room ids, slots
  and lecturers listed once, non-negative room capacities. The ordered slot list that the fragmentation charge counts
  positions in lists the slots of the lookup, each once. The structural analysis needs at most 100 sessions per offering
  (`Ssa.SessionIdCollision` shows why), the search at least one candidate, one individual and one tournament round, and
  non-negative weights.

Where the code and its own words part:

- src/ssa/hopcroftKarp.ts:4-6 calls an insufficient matching provably infeasible. It proves that there are no distinct block
  starts among the slots that static exclusion leaves. `Limits.OneSlotForTwo` and `Limits.NamedRoomIsLost` are schedulable
  inputs with that verdict, and `Exactness.InfeasibleProvesIff` gives the exact condition under which the words are right.
- src/ssa/bipartiteGraph.ts:69-70 says that the search can do at least as well as a FEASIBLE verdict. For sessions of two or
  more slots it need not: `Guarantee.FeasibleYetColliding` has an input for every such duration, and
  `Guarantee.FeasibleGuaranteesIffUnit` gives the exact condition.
- src/ga/fitness.ts:7-8 says that a violation always loses. `Weights.ViolationMayWin` has two legal timetables of one
  problem for which it wins, and `Penalties.HardBeatsSoft` gives the exact condition.
- src/ga/chromosome.ts:30-45 promises all back-to-back sequences. The database only forbids two slots with the same day,
  start and end (prisma/schema.prisma:163), so slots may overlap or start together: `Completeness.OverlapHides` and
  `Completeness.TiedStartHides` are timetables with a missed sequence, and `Completeness.FindsAllIffClear` gives the exact
  condition for all of them.
- src/ga/repair.ts:143-151 announces that the last resort leaves a conflict. It can also add violations, and to a timetable
  that has none: the repair keeps siblings off each other's slots (src/ga/repair.ts:67-78), while the count allows two
  siblings in different rooms with different lecturers to meet. `Spoiled.RepairSpoils` is a violation-free timetable, with a
  FEASIBLE verdict on its candidates, that every run of the repair spoils; `LastResort.RepairNeverRaisesIff` gives the exact
  condition for one session.
- AC-3 never reports a domain that was empty from the start; Hopcroft-Karp catches it. An AC-3 report gives 0 as the
  achievable matching, which is never the maximum: `Limits.Ac3ReportsTooLittle` is an input. By `Ssa.RunSSA` the reported
  size is the maximum if and only if an arc-consistent restriction of the domains exists.
- The rejection for an empty lecturer pool in the cohort pass can never be taken: `Handover.CandidatesAreOk`.

## Model

| member | source | states |
|---|---|---|
| `Ssa.RunSSA` | src/ssa/index.ts:22-96 | FEASIBLE if and only if the graph before pruning, after static exclusion, has an injective choice of one block start per session; the degraded offerings are exactly those with slots but no block; AC-3 stops the analysis if and only if no arc-consistent restriction of the domains exists, that is, for candidates whose pools hold their own lecturers, if and only if no choice from the domains leaves each session with starts one such that no session’s only start is offered to a session that must start apart from it; the reported size is the maximum of the unpruned graph if and only if AC-3 does not stop; a matching report names exactly the offerings left out by a matching of that size; an AC-3 report means that not even the room and lecturer constraints alone can be met, and names the offering of a session that had starts |
| `Ssa.PruningKeepsMaximum` | src/ssa/index.ts:36-62 | a maximum matching of the pruned graph is one of the unpruned graph, and it is full exactly when the unpruned graph has distinct starts for all sessions |
| `Ssa.NoSupportNoChoice` | src/ssa/index.ts:38-55 | when AC-3 finds no consistent restriction there is neither a full choice of distinct starts nor an assignment that respects rooms and lecturers |
| `Ssa.LeftOver` | src/ssa/index.ts:64-82 | the unmatched sessions of the pruned graph are those that a matching of the unpruned graph leaves out, named by offering |
| `Ssa.ArcIff` | src/ssa/ac3.ts:44-81 | the constrained pairs of the pruning are exactly the pairs of different sessions whose candidates name one room, or are of different offerings and share a lecturer of their pools |
| `Ssa.SupportIffChoice` | src/ssa/index.ts:30-38 | for the candidates as given, before exclusion: an arc-consistent restriction exists if and only if a choice exists that keeps the only start of a session from every session that must start apart from it |
| `Ssa.NodesList` | src/ssa/bipartiteGraph.ts:45-62 | there is one node for each parallel session of each candidate, with its room and with exactly the lecturers of its pool, and there are no others |
| `Handover.NodesListTeachers` | src/ssa/bipartiteGraph.ts:45-48 | for the validator’s candidates, the nodes of a cohort list exactly the lecturers who teach one of its offerings |
| `HopcroftKarp.RunHopcroftKarp` | src/ssa/hopcroftKarp.ts:13-122 | the two returned maps are mutually inverse, the matched part is a matching of the graph of the reported size, no matching of the graph is larger, and the unmatched list holds each unmatched session once |
| `HopcroftKarp.Matching.CoverBound` | src/ssa/hopcroftKarp.ts:42-76 | when no reached session sees a free slot, every matching of the graph is at most as large as the current one: unreached sessions and slots of reached sessions form a vertex cover of that size |
| `HopcroftKarp.Matching.HeldSlots` | src/ssa/hopcroftKarp.ts:58-74 | the slots adjacent to reached sessions are at most as many as the reached, matched sessions |
| `HopcroftKarp.Matching.GivenUpAll` | src/ssa/hopcroftKarp.ts:79-110 | if every unmatched session was searched without success, then no reached session sees a free slot: a session marked infinite has no layered path to one |
| `HopcroftKarp.Matching.PhaseEnd` | src/ssa/hopcroftKarp.ts:102-110 | a phase whose layering reached a free slot cannot end with every root given up and nothing matched |
| `HopcroftKarp.Matching.AugmentFree` | src/ssa/hopcroftKarp.ts:79-96 | taking a free slot matches exactly one more session and one more slot and keeps the maps inverse and inside the adjacency |
| `HopcroftKarp.Matching.AugmentThrough` | src/ssa/hopcroftKarp.ts:79-96 | rerouting through the partner of a slot extends an augmentation of that partner: one more session, one more slot, nobody unmatched |
| `HopcroftKarp.Matching.SearchFails` | src/ssa/hopcroftKarp.ts:83-95 | a slot that did not lead to an augmentation is dead for this session for the rest of the phase |
| `HopcroftKarp.Matching.ExpandLayers` | src/ssa/hopcroftKarp.ts:61-72 | putting an unreached partner on the next layer keeps every layered session reachable from an unmatched one over alternating edges |
| `HopcroftKarp.Matcher.constructor` | src/ssa/hopcroftKarp.ts:18-40 | all sessions and all adjacent slots start unmatched |
| `HopcroftKarp.Matcher.Bfs` | src/ssa/hopcroftKarp.ts:42-76 | terminates with closed layers, and returns true exactly when a reached session sees a free slot |
| `HopcroftKarp.Matcher.Expand` | src/ssa/hopcroftKarp.ts:56-73 | one queue step puts exactly the unreached partners of the session’s own slots on the next layer, changes no other layer and reports whether the session sees a free slot |
| `HopcroftKarp.Matcher.Dfs` | src/ssa/hopcroftKarp.ts:79-99 | terminates by climbing layers; success adds one session and one slot and unmatches none; failure leaves the matching alone, marks the session and changes only layers at or below it |
| `HopcroftKarp.Matcher.Phase` | src/ssa/hopcroftKarp.ts:102-110 | keeps the counter equal to the number of matched sessions, and matches at least one more session when the layering reached a free slot |
| `HopcroftKarp.Matcher.Run` | src/ssa/hopcroftKarp.ts:101-110 | the phases terminate, and at the end no matching of the graph is larger than the counter |
| `Bipartite.MatchingSize` | src/ssa/index.ts:60-62 | a matching has at most as many edges as there are sessions, with equality exactly when every session is matched |
| `Ac3.RunAC3` | src/ssa/ac3.ts:11-159 | answers consistent exactly when some arc-consistent restriction of the input domains exists; the pruned domains are then the greatest one, and every matching of the input graph has one of the same size in them; an inconsistent answer names a session whose domain was not empty and became empty, with its offering |
| `Ac3.ReviseKeepsSupported` | src/ssa/ac3.ts:109-129 | one revision removes nothing that any arc-consistent restriction uses |
| `Ac3.ReviseKeepsMatchings` | src/ssa/ac3.ts:109-129 | after one revision every matching can be rerouted to one of the same size |
| `Ac3.ReviseShrinks` | src/ssa/ac3.ts:131-158 | after a revision that removed a slot, adding the related arcs restores the worklist invariant whatever the order of the worklist |
| `Ac3.ReviseEmpties` | src/ssa/ac3.ts:131-142 | a domain that becomes empty refutes every arc-consistent restriction |
| `Ac3.PruningEnd` | src/ssa/ac3.ts:87-159 | with an empty worklist no constrained pair is left in which the only slot of one is still offered to the other, and the result is the greatest such restriction |
| `Ac3.RespectingIsSupported` | src/ssa/ac3.ts:109-129 | an assignment that meets the room and lecturer constraints is itself an arc-consistent restriction |
| `Ac3.FullChoiceRespects` | src/ssa/index.ts:36-62 | distinct block starts meet all room and lecturer constraints |
| `Ac3.BuildRoomIndex` | src/ssa/ac3.ts:24-31 | groups exactly the sessions with a concrete room, room by room |
| `Ac3.BuildLecturerIndex` | src/ssa/ac3.ts:34-42 | groups the sessions lecturer by lecturer |
| `Ac3.BuildWorklist` | src/ssa/ac3.ts:44-81 | the worklist holds every ordered pair of constrained sessions, each exactly once, and nothing else |
| `Ac3.AddGroup` | src/ssa/ac3.ts:58-80 | adds both directions of every pair of a group, siblings exempted in lecturer groups only |
| `Ac3.Revise` | src/ssa/ac3.ts:95-124 | returns the slots excluded by a single remaining slot of the neighbour, nothing for unconstrained pairs |
| `Ac3.FindInconsistent` | src/ssa/ac3.ts:111-124 | the slots of one domain that are the only slot of the other |
| `Ac3.RelatedArcsComplete` | src/ssa/ac3.ts:144-157 | the pushed arcs include every constrained neighbour of the revised session |
| `Ssa.BuildBipartiteGraph` | src/ssa/bipartiteGraph.ts:26-92 | one node per session in candidate order, in the room and with the lecturers of its candidate’s pool, its domain the block starts of its candidate, slot nodes exactly the starts that occur, and degraded offerings exactly those with slots but no block |
| `Ssa.AddSessions` | src/ssa/bipartiteGraph.ts:50-87 | every parallel session of a candidate gets its own id and the same block starts |
| `Ssa.SessionDomains` | src/ssa/bipartiteGraph.ts:50-124 | the graph has a domain for exactly each session, and it holds a slot if and only if a back-to-back run of the session’s length starts there on some day of the candidate’s slots, or no day has such a run and the slot is allowed |
| `Ssa.ComputeBlockStarts` | src/ssa/bipartiteGraph.ts:107-124 | the first slots of all contiguous blocks, or every allowed slot when there is none, flagged as degraded |
| `Ssa.GraphIsOk` | src/ssa/bipartiteGraph.ts:39-87 | session ids are distinct and the graph has as many sessions as the candidates ask for |
| `Ssa.NodeIdsDistinct` | src/ssa/bipartiteGraph.ts:50-53 | the id scheme keeps sessions of different offerings apart for at most 100 sessions an offering |
| `Ssa.OfferingOfSessionId` | src/ssa/index.ts:64-70 | offering and index can be read back from a session id below index 100 |
| `Ssa.SessionIdCollision` | src/ssa/bipartiteGraph.ts:51-51 | the 101st session of an offering has the id of the next offering’s first session, so the bound of 100 is needed |
| `Ssa.ExclusionKeepsInput` | src/ssa/staticExclusion.ts:19-44 | static exclusion keeps the offerings distinct and the number of sessions unchanged |
| `Ssa.ExclusionExact` | src/ssa/staticExclusion.ts:19-44 | exclusion passes on every candidate and takes from each flexible one exactly the slots that a fixed candidate with the same room value may use; nothing else of a candidate changes |
| `Admissibility.FeasibleIffStarts` | src/ssa/index.ts:22-62 | the verdict is FEASIBLE if and only if the sessions can be given pairwise different starts that exclusion leaves them |
| `Admissibility.SchedulableIffRoster` | src/ga/fitness.ts:54-86 | a legal timetable without hard violations exists if and only if every session node can be given a legal session such that no two collide |
| `Guarantee.FeasibleUnitsAreSchedulable` | src/ssa/bipartiteGraph.ts:64-72 | for one-slot sessions a FEASIBLE verdict implies a legal timetable of the given candidates without any collision |
| `Guarantee.FeasibleGuaranteesIffUnit` | src/ssa/bipartiteGraph.ts:64-72 | FEASIBLE guarantees a collision-free timetable for all inputs with the given session durations if and only if every duration is one slot |
| `Guarantee.FeasibleYetColliding` | src/ssa/bipartiteGraph.ts:69-70 | for every duration d of two or more slots: two courses of one room over d + 1 consecutive slots are FEASIBLE, although every legal timetable has a collision |
| `Exactness.SchedulableNeedsStarts` | src/ssa/hopcroftKarp.ts:4-6 | for one input whose candidates have a known slot each: if no two sessions may meet and exclusion takes no slot from a candidate with sessions, a collision-free legal timetable makes the verdict FEASIBLE |
| `Exactness.ContendedIsProof` | src/ssa/hopcroftKarp.ts:4-6 | if no two sessions may meet and no flexible candidate names a fixed room, INFEASIBLE proves that there is no timetable, whatever slots the candidates are given, as long as each has a known one |
| `Exactness.InfeasibleProvesIff` | src/ssa/hopcroftKarp.ts:4-6 | INFEASIBLE proves, for every choice of slots that leaves each candidate a known one, that no collision-free timetable exists if and only if no legal rooms and lecturers let two sessions meet and no flexible candidate with sessions names the room of a fixed one |
| `Limits.OneSlotForTwo` | src/ssa/hopcroftKarp.ts:4-6 | two one-slot courses in different rooms with one allowed slot: INFEASIBLE, although a collision-free legal timetable exists |
| `Limits.NamedRoomIsLost` | src/ssa/staticExclusion.ts:30-39 | two one-slot courses that can never meet, with two slots, one course locked in the room the other names: exclusion leaves the other no slot and the verdict is INFEASIBLE, although a collision-free legal timetable exists |
| `Limits.Ac3ReportsTooLittle` | src/ssa/index.ts:38-55 | two locked courses of one room with one slot: no arc-consistent restriction exists, so the reported achievable matching is 0, while the maximum is 1 |
| `Timetable.FindContiguousSlots` | src/ga/chromosome.ts:47-103 | returns, day by day in order of first appearance, every back-to-back window of the requested length of the day’s chronological list |
| `Timetable.ScanDay` | src/ga/chromosome.ts:79-99 | cutting a day into maximal chains yields exactly its back-to-back windows |
| `Timetable.GroupByDay` | src/ga/chromosome.ts:63-68 | buckets the slots by day, days in order of first appearance |
| `Timetable.BlocksExact` | src/ga/chromosome.ts:47-103 | a sequence is returned if and only if it is a back-to-back window of one day’s chronological list |
| `Timetable.BlockIsBackToBack` | src/ga/chromosome.ts:33-35 | every returned block has the requested length, distinct allowed slots of one day, each ending when the next starts |
| `Timetable.BlockStartsDistinct` | src/ssa/bipartiteGraph.ts:12-13 | different blocks start at different slots, so a start identifies its block |
| `Timetable.BlocksExistIffRunFits` | src/pre-ga/validator.ts:370-381 | the finder returns something exactly when the duration is positive and at most the longest run |
| `Timetable.ComputeLongestContiguousRun` | src/pre-ga/validator.ts:440-470 | the result is the length of the longest back-to-back run that any day offers, 0 without slots |
| `Timetable.LongestRunOfDay` | src/pre-ga/validator.ts:456-467 | the run counter of one sorted day returns the length of its longest run |
| `Completeness.FindsAllIffClear` | src/ga/chromosome.ts:30-45 | for all slot sets, the finder returns all back-to-back sequences of all lengths if and only if, whenever one slot starts as another ends, the other comes before it by start and then list order and no allowed slot comes in between |
| `Completeness.NoOverlapIsClear` | src/ga/chromosome.ts:30-45 | a timetable without overlapping slots meets that condition |
| `Completeness.ClearFinds` | src/ga/chromosome.ts:30-45 | under that condition every back-to-back same-day sequence is returned |
| `Completeness.FoundPairIsClear` | src/ga/chromosome.ts:72-88 | a returned pair is in order of start and list, with no allowed slot in between |
| `Completeness.TiedStartHides` | src/ga/chromosome.ts:75-76 | of two slots that start together as a third ends, the finder misses the one listed second |
| `Completeness.OverlapHides` | src/ga/chromosome.ts:79-88 | a slot that starts during another hides the slot that follows the other |
| `Prelude.StableSortStable` | src/ga/chromosome.ts:75-76 | the sort keeps the list order of slots that start together |
| `SameDay.PickSameDaySessionSlots` | src/ga/chromosome.ts:166-243 | for every tie-break: distinct allowed slots of one day, exactly as many as the duration or the fullest day allows, and a contiguous block whenever one exists; always the first slots of the day’s maximal back-to-back runs, longer runs first and earlier ones first among equals, on a day with the longest run, or on a fullest day when that day is too small and smaller |
| `SameDay.FewestRuns` | src/ga/chromosome.ts:205-220 | no runs of the day that together hold the duration are fewer than those that the pick uses |
| `SameDay.SortedAreBest` | src/ga/chromosome.ts:196-206 | the sorted runs are exactly the maximal back-to-back runs of the day, longest first, earlier ones first among equals |
| `SameDay.SplitRuns` | src/ga/chromosome.ts:196-204 | cuts a day into exactly its maximal back-to-back runs, in order |
| `SameDay.TakeFromRuns` | src/ga/chromosome.ts:213-220 | takes the first slots of the listed runs up to the duration |
| `SameDay.PickBest` | src/ga/chromosome.ts:209-211 | an entry with the largest key, whichever the random tie-break chooses |
| `SameDay.LongestProfile` | src/ga/chromosome.ts:194-211 | the longest run among the day profiles is the longest run of the timetable |
| `Fitness.EvaluateHardFitness` | src/ga/fitness.ts:54-86 | returns the number of room-time and lecturer-time bookings that repeat an earlier one |
| `Fitness.CountSession` | src/ga/fitness.ts:68-82 | one session adds one violation for each of its bookings already made |
| `Fitness.HardCountZero` | src/ga/fitness.ts:54-86 | the count is zero exactly when any two sessions that meet at a slot differ in room and share no lecturer |
| `Fitness.ViolationsAreFlagged` | src/ga/fitness.ts:54-86 | if only flagged sessions may collide, the count is at most the number of bookings of the flagged sessions |
| `Penalties.CalculateLoadPenalty` | src/ga/fitness.ts:181-207 | the sum over lecturers with a limit of the teaching load above it |
| `Penalties.LoadOfOneLecturer` | src/ga/fitness.ts:200-206 | without limits there is no penalty, and the limit of one more lecturer adds exactly what that lecturer teaches above it |
| `Penalties.NobodyOverloaded` | src/ga/fitness.ts:200-206 | no penalty means that nobody teaches above the own limit |
| `Penalties.SessionCredits` | src/ga/fitness.ts:189-197 | a further session credits each of its lecturers with its slots, once per listing |
| `Penalties.SksAddUp` | src/ga/fitness.ts:189-199 | the loads credited to the lecturers add up to slots times lecturers over all sessions |
| `Penalties.CalculateCapacityShortfallPenalty` | src/ga/fitness.ts:225-250 | the missing seats of every gene without a given room, 0 without room data |
| `Penalties.SeatsLowerShortfall` | src/ga/fitness.ts:225-250 | more combined seats in one gene never raise the total penalty and lower it where seats were missing |
| `Penalties.NobodyStands` | src/ga/fitness.ts:225-250 | no penalty means that every gene of an offering without a room has seats for all its students |
| `Penalties.CalculateFragmentationPenalty` | src/ga/fitness.ts:265-316 | the gap charges of all sessions with positions in the day’s listed slots, 0 without a lookup |
| `Penalties.GapIsCounted` | src/ga/fitness.ts:299-311 | a gap between two known slots of one day costs the positions between them in the day’s slot list, at least one; the branch for a missing position is never taken |
| `Penalties.NoGaps` | src/ga/fitness.ts:291-311 | a back-to-back session is charged nothing |
| `Penalties.NoChargeNoGap` | src/ga/fitness.ts:291-311 | a session of known slots that is charged nothing is back-to-back throughout |
| `Penalties.PairCost` | src/ga/fitness.ts:291-311 | two slots in a row are free of charge exactly when one follows the other on one day or one is unknown, and a change of the day costs 100 |
| `Penalties.NothingFragmented` | src/ga/fitness.ts:286-314 | no fragmentation penalty means that every session runs without a gap on one day |
| `Penalties.HardBeatsSoft` | src/ga/fitness.ts:7-8 | a timetable without violations beats every timetable with one if and only if its weighted soft penalty stays below the hard weight |
| `Weights.ViolationMayWin` | src/ga/fitness.ts:7-8 | one problem and two legal timetables: with the default weights the one with a violation is fitter than the one without |
| `Evolution.EvaluateFitness` | src/ga/fitness.ts:399-445 | the reported fitness and counts are those of the timetable’s value |
| `RepairSession.BuildConflictIndex` | src/ga/repair.ts:31-52 | the index holds exactly the bookings of the genes of the other offerings |
| `RepairSession.CleanIsApart` | src/ga/repair.ts:67-91 | a session that passes the conflict checks meets no indexed session in its room or through a lecturer and uses no taken slot |
| `RepairSession.SameLecturerSetIff` | src/ga/repair.ts:93-98 | true exactly for lists with the same lecturers, repetitions counted |
| `RepairSession.LecturerAlternatives` | src/ga/repair.ts:100-126 | the alternatives are the sorted cyclic windows along one reordering of the pool, in that order and each listed where it first occurs; all are duplicate-free choices of the current size, and for size 1 every lecturer of the pool is among them |
| `RepairSession.PickLecturerSwapForBlock` | src/ga/repair.ts:128-141 | returns the first choice along some order of the pool that differs from the current set and is free in the block, and none when no choice along that order is; with one lecturer none is returned only if every lecturer of the pool conflicts |
| `RepairSession.SwapKeepsLecturersOk` | src/ga/repair.ts:93-141 | a swap different from the current set is only possible for a multi-sibling cohort and stays legal |
| `RepairSession.TryRoom` | src/ga/repair.ts:239-248 | returns a conflict-free block in the room or proves that no block works there |
| `RepairSession.SearchPlacement` | src/ga/repair.ts:237-264 | returns a conflict-free placement in an allowed room or proves that no allowed room and block works |
| `RepairSession.RepairSessionAsBlock` | src/ga/repair.ts:152-273 | the session object itself or a new one, and what the search returns for some order of each shuffle, and some same-day pick where no full block exists: kept when clean and of full length, else swapped in place, else moved to the first room and block that work, else the last resort, which keeps the room and swaps the lecturers where another free choice is found; the result is legal, and unless it is a last resort it is conflict-free; a last resort means that no allowed room admitted the current lecturers in any full block or in the slots left; for one lecturer with a full block the result is conflict-free if and only if a placement exists |
| `RepairSession.HopelessForOneLecturer` | src/ga/repair.ts:237-272 | when the search found nothing for a single lecturer, no room, block and lecturer of the pool fits |
| `RepairSession.CleanResultIsPlacement` | src/ga/repair.ts:237-272 | a conflict-free result is such a placement |
| `Outcomes.TryNoneIff` | src/ga/repair.ts:239-248 | the search in one room may come back empty if and only if every block clashes there, with the current lecturers and along some order of the pool |
| `Outcomes.SearchNoneIff` | src/ga/repair.ts:237-264 | the whole search may give up if and only if no allowed room takes any of the blocks |
| `Outcomes.SwapForOne` | src/ga/repair.ts:128-141 | with one lecturer, exactly the other free lecturers of the pool may be swapped in |
| `Outcomes.RepairMeans` | src/ga/repair.ts:152-273 | every result of a repair is clean, or the session was not clean, the search had to give up and the result is a last resort in a full block |
| `Outcomes.ResortIsOutcome` | src/ga/repair.ts:266-272 | when a session is not clean and the search has to give up, every full block may become its last resort |
| `Outcomes.SwapInPlace` | src/ga/repair.ts:178-192 | if only lecturers clash in a full-length session and every order of the pool has another choice that is free, then every result keeps the room and the slots and takes another free choice of the pool |
| `Outcomes.OneLecturerSwapInPlace` | src/ga/repair.ts:178-192 | for one lecturer: if the only clash is through that lecturer and another one of the pool is free at the slots, every result keeps room and slots and takes a free lecturer of the pool |
| `Outcomes.CurrentRoomFirst` | src/ga/repair.ts:239-248 | if the current room takes one of the full blocks whatever the order of the pool, the result of a search stays in it |
| `Outcomes.FreeLecturersStay` | src/ga/repair.ts:239-264 | outside the last resort the lecturers of a session change only where they clash |
| `Outcomes.LastResortMeans` | src/ga/repair.ts:224-227 | a last resort keeps the room, takes a full block or else the best same-day pick, and has another free choice of lecturers if every order of the pool offers one, the old lecturers if no order does |
| `Outcomes.DegradedMeans` | src/ga/repair.ts:195-228 | without a full block a session that is too short or whose room or slots clash moves onto a best same-day pick: in its own room if that works, in another allowed room otherwise, as a last resort only if none works; it stays only if there is nothing to pick |
| `LastResort.AddedSession` | src/ga/fitness.ts:54-86 | a session adds exactly as many violations as it has bookings that are already taken |
| `LastResort.ReplacementRises` | src/ga/fitness.ts:54-86 | replacing one session by another raises the count if and only if more of the new session’s bookings than of the old one’s are taken |
| `LastResort.RepairNeverRaisesIff` | src/ga/repair.ts:152-273 | for any number of lecturers and a full block, among the other genes and the earlier siblings: no result of the repair, over all shuffles, has more violations than the session had if and only if the session is clean, or some allowed room takes a full block, or no last resort in a full block has more taken bookings |
| `LastResort.HopelessIffNoPlacement` | src/ga/repair.ts:237-264 | for one lecturer, the search gives up if and only if no allowed room, full block and lecturer of the pool fit |
| `LastResort.OneLecturerNeverRaisesIff` | src/ga/repair.ts:152-273 | the same for one lecturer: no result raises the count if and only if the session is clean, or a conflict-free placement exists, or no full block, with another free lecturer of the pool or else the current one, has more taken bookings than the session |
| `LastResort.LastResortCanRaiseViolations` | src/ga/repair.ts:266-272 | a legal session with everything exhausted that its repair may move to another block, which raises the violation count |
| `Repair.RepairSessions` | src/ga/repair.ts:453-478 | every session becomes what its repair may return beside the slots of the siblings placed before it; the repaired sessions stay legal; those not left to the last resort meet no other gene and no earlier sibling; each last resort came after exhausting every allowed room and block |
| `Repair.WriteMask` | src/ga/repair.ts:480-484 | assigns the rooms of the session objects in place, and nothing else |
| `Repair.MaskChangesNothing` | src/ga/repair.ts:480-484 | resetting the rooms of a fixed gene writes nothing new |
| `Repair.BestRoom` | src/ga/repair.ts:391-418 | the largest room of the pool that is larger and free for the session, if there is one |
| `Repair.FindUpgrade` | src/ga/repair.ts:377-421 | the weakest session that can move at all, to the largest room it can move to |
| `Repair.UpgradeStep` | src/ga/repair.ts:406-416 | an accepted move strictly raises the combined capacity, adds no violation around it and keeps repaired sessions repaired |
| `Repair.MoveToFreeRoom` | src/ga/repair.ts:398-416 | moving a session into a room that nobody else holds at its slots never raises the violation count |
| `Repair.MoveSession` | src/ga/repair.ts:406-416 | assigns the room of one session object in place |
| `Repair.RepairCapacityShortfall` | src/ga/repair.ts:356-425 | writes only rooms of the gene’s session objects in place, only into the pool; round by round the weakest session that can move goes to the largest larger and free room, until there are enough seats, no move is left or one move per session was made; each move gains seats, the violation count does not rise and repaired sessions stay repaired |
| `Seats.RepairSeats` | src/ga/repair.ts:356-425 | said of the repaired gene: with room data, a flexible gene of an open room in two or more sessions that is short of seats after the placement ends with enough seats, or with no session that could move to a larger room of the pool that nobody else holds at its slots, or with a seat more for each session; if such a room existed it gained seats; any other gene keeps its rooms |
| `Seats.UpgradeMeans` | src/ga/repair.ts:377-418 | a move is open to the pass exactly when a larger room of the pool is held by no other offering and no sibling at the session’s slots |
| `Repair.RepairedIsSettled` | src/ga/repair.ts:444-478 | a repaired gene collides with no other gene and no sibling, flagged sessions aside |
| `Genes.CloneChromosome` | src/ga/repair.ts:435-442 | the same value in new, pairwise different gene and session objects |
| `Repair.PrefixGrows` | src/ga/repair.ts:444-499 | genes already repaired stay collision-free against everything while a later gene moves |
| `Repair.RepairGene` | src/ga/repair.ts:444-499 | repairs one locus in place and leaves the others alone; its sessions are old ones of the gene or new objects; the gene meets nobody outside and no sibling, last resorts aside, and each of those was earned; with room data a gene that is short of seats goes through the capacity pass, and every other gene keeps the rooms of its placement |
| `Repair.RepairLocus` | src/ga/repair.ts:444-499 | inside a chromosome without shared objects the other loci keep their values, and no object becomes shared |
| `Repair.RepairChromosome` | src/ga/repair.ts:427-502 | new, pairwise different gene and session objects with legal values; gene by gene, against the repaired genes before it and the input genes behind it, every session became what its repair may return, and after that rooms moved exactly as the capacity pass moves them; unflagged sessions are pairwise collision-free, the violation count is at most the bookings of the flagged sessions and zero without any, and a session is flagged only if at its turn every allowed room and full block was exhausted |
| `CleanInput.SpreadTimetableIsKept` | src/ga/repair.ts:427-502 | a violation-free timetable of full-length sessions whose siblings share no slot comes back from every repair with the same sessions, rooms moved by the capacity pass aside, and without a violation |
| `Spoiled.RepairSpoils` | src/ga/repair.ts:67-78 | a legal, violation-free timetable on candidates with a FEASIBLE verdict, two siblings of which share a slot in different rooms with different lecturers: whatever the draws are, its repair has a violation |
| `Prelude.FisherYatesShuffle` | src/ga/chromosome.ts:108-115 | the result is that of the swaps for its draws, hence a permutation of its input |
| `Prelude.MayShuffleIff` | src/ga/chromosome.ts:108-115 | for every permutation of the input some draws produce it, and nothing else is produced |
| `Operators.PickDistinctBlocks` | src/ga/chromosome.ts:122-131 | as many blocks as asked for, all from the list, and two places hold one block only if their distance is a multiple of the number of blocks; none from an empty list |
| `Operators.PickSlots` | src/ga/chromosome.ts:257-306 | every session gets a block, different ones as long as they last, or a best same-day pick when there is no block |
| `Operators.CreateGeneFromCandidate` | src/ga/chromosome.ts:257-411 | a new legal gene with new sessions that take the siblings’ lecturer groups, or the offering’s own lecturers, and the blocks in turn, in the room the candidate names or else in rooms of its pool, one room for all sessions unless the candidate is split over free rooms |
| `Operators.GroupsInTurn` | src/ga/chromosome.ts:329-342 | session k gets the lecturer group of sibling k, and after the last sibling the groups start over |
| `Operators.SeededApart` | src/ga/chromosome.ts:340-348 | with enough blocks the sessions of a seeded gene start at different slots |
| `Operators.CreateRandomChromosome` | src/ga/chromosome.ts:417-425 | a new legal chromosome of new genes and sessions, locus i seeded from candidate i |
| `Operators.SinglePointCrossover` | src/ga/crossover.ts:144-158 | new genes and sessions: the children are the two parents spliced at one point, the parents are only read |
| `Operators.UniformCrossover` | src/ga/crossover.ts:161-177 | new genes and sessions: at every locus the children hold the parents’ genes, straight or swapped |
| `Operators.PmxCrossover` | src/ga/crossover.ts:180-201 | new genes and sessions: exactly the sessions of one segment are exchanged, kinds and offerings stay |
| `Operators.MaskNeverFires` | src/ga/crossover.ts:43-142 | between any two legal chromosomes the masking check passes at every locus: fixed kinds and rooms kept, lecturers inside the pool |
| `Operators.ExchangedOk` | src/ga/crossover.ts:180-201 | exchanging sessions at aligned loci keeps a chromosome legal |
| `Operators.RecombinedOk` | src/ga/crossover.ts:144-177 | recombining aligned loci keeps a chromosome legal |
| `Operators.Crossover` | src/ga/crossover.ts:204-212 | new legal chromosomes that are exactly what the chosen strategy makes of the parents: spliced at one point, chosen locus by locus, or with the sessions of one segment exchanged; neither parent is written |
| `Mutation.MutateLecturer` | src/ga/mutation.ts:143-173 | at most one session changes, only its lecturers, only in a multi-sibling cohort, to a legal set of the same size |
| `Mutation.RebuildFixed` | src/ga/mutation.ts:197-227 | new slots, different blocks as long as they last, every session’s room and lecturers kept |
| `Mutation.RebuildFlexible` | src/ga/mutation.ts:240-291 | new slots, different blocks as long as they last, and new rooms out of the pool, or the gene’s first room without a pool; lecturers kept, one room for all sessions unless the candidate is split over free rooms |
| `Mutation.MutateGene` | src/ga/mutation.ts:175-301 | below rate 1 possibly the gene itself, above rate 0 possibly a new legal gene with new sessions of newly spread slots, and nothing else; a fixed gene keeps its rooms, any other draws them anew, and at most one session of a cohort and none of a single offering changes its lecturers |
| `Mutation.MutateChromosome` | src/ga/mutation.ts:175-301 | a legal chromosome whose loci are the old objects, unless the rate is 1 or more, or mutated new ones, unless it is 0 or less; nothing old is written |
| `WellFormed.FittingCandidateHasNoGaps` | src/ga/fitness.ts:291-311 | a legal session of a candidate whose longest run fits is a back-to-back block of exactly its duration with fragmentation charge 0 |
| `WellFormed.AnySessionIsOneDay` | src/ga/chromosome.ts:152-158 | every legal session stays on one day with distinct allowed slots, as many as the duration or the fullest day allows |
| `WellFormed.LecturerCountFixed` | src/ga/chromosome.ts:329-342 | a legal session has as many distinct lecturers of the pool as it was seeded with, at least one |
| `WellFormed.SksConserved` | src/ga/fitness.ts:181-199 | when every candidate’s sessions fit, the loads of all lecturers add up to a total fixed by the candidates |
| `Evolution.InitialPopulation` | src/ga/runGA.ts:112-115 | individuals that are legal and each a repair of a seeded chromosome |
| `Evolution.TournamentSelection` | src/ga/selection.ts:7-22 | returns the first of the fittest among the drawn competitors, as many as the tournament size, all members of the population |
| `Evolution.SortByFitness` | src/ga/runGA.ts:151-152 | a permutation in descending fitness, each entry with what belongs to it |
| `Evolution.EvaluateGeneration` | src/ga/runGA.ts:141-158 | every member evaluated once and ranked in descending fitness; the first entry is the best and the average is the mean fitness of the population, whatever the order |
| `Evolution.Breed` | src/ga/runGA.ts:255-266 | two new legal children in new genes and sessions, bred from two members of the generation; the parents are only read |
| `Evolution.BreedFrom` | src/ga/runGA.ts:259-266 | each child is a repair of a mutation of one of the two results of crossing the parents with the configured strategy; new genes and sessions, the parents are only read |
| `Evolution.NextPopulation` | src/ga/runGA.ts:244-270 | a legal population of the same size that starts with the elite objects, unchanged, and goes on with the children of members of the generation pair by pair, the last pair cut if need be, in new genes and sessions |
| `Evolution.BaselineStep` | src/ga/runGA.ts:220-227 | the run’s counter and recorded fitness are always the age and the value of the baseline |
| `Evolution.BestStep` | src/ga/runGA.ts:160-173 | the overall best stays the best individual of the first generation with the maximum of the history, a legal timetable of that fitness |
| `Evolution.HistoryNeverDecreases` | src/ga/runGA.ts:248-252 | when each population starts with the first entries of the ranking of the one before and there is at least one elite, the best-fitness history never decreases |
| `Evolution.StagnationMeans` | src/ga/runGA.ts:220-236 | early stagnation means at least 101 generations, a best individual that still violates a hard constraint, and none of the last 100 generations more than 0.000001 above the baseline, which itself gained that much on an earlier entry unless it is the first |
| `Evolution.BaselineMeans` | src/ga/runGA.ts:220-227 | the baseline gained more than 0.000001 on the baseline before it, or is the first entry, and no later entry gained as much on it |
| `Evolution.FlatRunStops` | src/ga/runGA.ts:229-236 | a run that never beats its first best by more than 0.000001 and always violates ends as stagnated with generation 101, unless it is cancelled or its budget is smaller |
| `Evolution.GoingOnGains` | src/ga/runGA.ts:220-236 | a run that goes past violating generations keeps gaining: its baseline is less than 100 generations old and has gained at least 0.00000001 of fitness per generation on the first entry |
| `Evolution.ViolatingRunEnds` | src/ga/runGA.ts:220-236 | a run whose best individuals all violate a hard constraint ends after at most 100,000,101 generations, whatever its budget |
| `Evolution.PerfectMeans` | src/ga/runGA.ts:238-242 | stopping on a perfect individual means fitness 1, which no timetable exceeds |
| `Perfect.PerfectIff` | src/ga/runGA.ts:238-242 | a legal timetable is free of penalties if and only if no two sessions collide, no lecturer teaches above the own limit, every roomless offering has seats for all its students, no session has a gap, and the competency, structural and preference terms are zero |
| `Evolution.RunGA` | src/ga/runGA.ts:91-282 | every population of the run is legal, the first one seeded and repaired, every other one its elite and repaired, mutated children of members of the one before; histories have one entry per generation, its best and its mean fitness, and, with elitism, never decrease; the reported best is the best individual of the first generation that reached the maximum; the run goes past a generation only if its best one is not free of all penalties and does not violate a hard constraint with a baseline 100 generations old, and it ends as stagnated or perfect exactly at such a generation; otherwise it ends by budget or cancellation |
| `Reachable.LociStayAligned` | src/ga/crossover.ts:66-142 | in every population locus i keeps the offering, kind and session count of candidate i |
| `Reachable.SessionsStayLegal` | src/ga/runGA.ts:112-270 | in every population: locked rooms kept, free rooms from the candidate’s own, sessions on one day and gap-free where the longest run fits, lecturers legal and of the seeded number |
| `Reachable.LoadIsConserved` | src/ga/fitness.ts:181-199 | when every candidate’s sessions fit, any two timetables of a run assign the same total load |
| `Reachable.EveryoneIsRepaired` | src/ga/runGA.ts:112-270 | every individual of every population is the result of a repair |
| `Reachable.ViolationsAreLastResorts` | src/ga/runGA.ts:112-270 | so in every individual of every population each collision is a booking of a session that the repair left to the last resort, and the other sessions collide with none of their kind |
| `Checks.CeilDivIsLeast` | src/pre-ga/validator.ts:253-257 | the rounded-up quotient is the least number of sessions that seats everyone |
| `Checks.ChecksDecideSound` | src/pre-ga/checks.ts:33-206 | the sequential checks pass exactly for offerings with lecturers, students, seats in time, facilities, eligible lecturers and slots if fixed |
| `Checks.RejectedForFirstDefect` | src/pre-ga/checks.ts:33-206 | an offering is rejected with a code exactly when it has that defect and none of those before it in the order of the checks; the defects are stated in seats, facilities, lecturers and slots |
| `Checks.QualifyingExact` | src/pre-ga/validator.ts:125-130 | a room is in the pool if and only if it has the facilities and, for a chosen room, the seats |
| `Checks.QualifyingSame` | src/pre-ga/validator.ts:246-251 | offerings without a room and with the same required facilities have the same pool |
| `Checks.SplitExact` | src/pre-ga/validator.ts:159-190 | an offering without a room is accepted exactly when some number of at most five sessions, at most one per qualifying room, seats it in the largest qualifying room, and gets the least such number |
| `Checks.GateExact` | src/pre-ga/validator.ts:113-196 | the verdict of the room gate on every offering: locked, one of the three refusals, or a pool, each exactly when its own condition on the rooms holds |
| `Validator.RunChecks` | src/pre-ga/validator.ts:77-90 | splits the offerings by their first failing check, in order |
| `Validator.FilterRooms` | src/pre-ga/validator.ts:113-196 | splits the remaining offerings by the room gate and records pools and session counts of those that stay |
| `Validator.ExactlyOne` | src/pre-ga/validator.ts:77-196 | each offering is accepted or rejected, never both, each once, and rejected with its own first reason |
| `Cohorts.GroupCohorts` | src/pre-ga/validator.ts:218-226 | one cohort per course in order of first appearance, holding all its offerings in ascending order |
| `Cohorts.CohortsPartition` | src/pre-ga/validator.ts:218-226 | every accepted offering is in exactly one cohort |
| `Validator.BuildCandidate` | src/pre-ga/validator.ts:230-391 | the candidate describes its cohort: least id first, largest count, union of lecturers ascending, sorted group per sibling, longest run and flag |
| `Validator.SplitCohort` | src/pre-ga/validator.ts:258-274 | the session count by chosen room, by the recorded split, or by the largest room of the pool |
| `Validator.RunPreGA` | src/pre-ga/validator.ts:50-419 | accepted and rejected offerings, and one candidate per cohort with its locked or named room |
| `Validator.TagKeeps` | src/pre-ga/entityTagger.ts:24-45 | tagging changes the room and its lock only |
| `Validator.FixedRoomsExact` | src/pre-ga/validator.ts:407-413 | exactly the accepted offerings that are fixed and name a room are locked, each in the room it names |
| `Handover.FixedMeans` | src/pre-ga/validator.ts:276-283 | a cohort led by a fixed offering may use exactly the slots this lists, any other cohort every slot of the week; without locks from outside it is locked exactly when the leading offering is fixed and names a room |
| `Handover.SiblingListsPartition` | src/pre-ga/validator.ts:218-234 | the sibling lists partition the accepted offerings by course, and each primary is the least id of its list |
| `Handover.RoomlessCohortIsSeated` | src/pre-ga/validator.ts:258-274 | a cohort without a room gets the least number of sessions that seats it in its largest qualifying room, at most five and at most one per room |
| `Handover.RoomCohortIsSeated` | src/pre-ga/validator.ts:258-261 | a cohort with a chosen room gets the least number of sessions that seats it there |
| `Handover.CandidatesAreOk` | src/pre-ga/validator.ts:296-351 | with rooms supplied all candidates are legal input for the search, and no cohort has an empty lecturer pool |
| `Handover.CandidatesAreSsaInput` | src/ssa/bipartiteGraph.ts:50-53 | the emitted candidates are legal input for the structural analysis if and only if none asks for more than 100 sessions |
| `Handover.FlagAgrees` | src/pre-ga/validator.ts:386-388 | the fragmentation flag is raised exactly when the slot finder returns no block |
| `Handover.NoFlagAllFit` | src/pre-ga/validator.ts:363-388 | without a raised flag every candidate’s sessions fit |

## Left out

- The HTTP API, the database repositories, the queue, the worker and the frontend: input, output and presentation.
- Paths without a slot lookup (the greedy repair and the shuffle-and-slice seeding): production always supplies a lookup.
- Evolution.EvaluateFitness: competency, structural and preference terms enter as arbitrary functions of the timetable's value, so the results hold for the program's own; they are sums over value fields that would only add easy members.
- The slot and lecturer lists inside a session: they are values, since the program assigns only a session's room in place.
- Lecturer entropy, logging, progress hooks, event-loop yields and checkpoints; a checkpoint's copy drops the lecturer lists, so nothing is claimed about it. A cancel request is an arbitrary choice at the start of a generation.
- Messages and metadata of rejections and reports, and the offering check for a missing course, which its type excludes; only the codes are modelled.
- The policy constant for disagreeing student counts, which switches its branch off.
- Branches for genes whose candidate is unknown: loci and candidates stay aligned, so they cannot be taken in a run.
- Rounding of floating-point fitness, and the distribution of random choices.
- The running time claims of the matching algorithm.
- Handover.CandidatesAreOk: without supplied rooms a candidate with an open room has no pool, and seeding fails with an error that is not modelled.
