# Verification model of the BravoFinder flight-route engine

This project models the parts of the engine where a mistake would be hardest to see from outside, and proves what they
are for:

* **Route search** (`NavGraph`, `Search`, `TurnCurve`, `PathCost`, `Workspace`, `SearchRun`, `AStar*`, `Yen*`): the multi-source, multi-goal A\*
  over a reused, generation-stamped workspace, and the K-shortest search with Lawler's rule, a super-source and a
  super-sink, its persistent candidate set and its patched spur tables.
* **Forced routing** (`Forced*`): the best-first walk of the product of per-hop alternatives, its ready queue, its budget
  and its greedy fallback.
* **Planning and filing** (`EndpointPlan`, `RouteAssembly`, `Designators`, `RouteString`, `AirwayExpansion`): merging
  connections into seeds, distance accounting from seed to filed leg, folding legs into a route string, and the
  airway-restricted shortest path behind route parsing.
* **Constraints** (`MoraGrid`, `MoraWalk`, `MoraConstraint`, `BitMasks`, `AirwayRules`): the minimum off-route altitude
  under a track, and airway rules resolved into bit masks.
* **The cache file** (`ByteIO`, `Groups`, `Pieces`, `WireField`, `Crc32C`, `Graph*`, `Cifp*`, `FixedNames`, `Container*`):
  little-endian records, the shared string pool, both section codecs, CRC-32C, the container from building to opening, and
  where every field of it lies.
* **The database registry** (`Registry`): the single-opener protocol as a system of calls and steps.

Where the original updates state in place, the model does: `SearchWorkspace`, `MultiGoalHeuristic`, `ByteWriter`,
`ByteReader`, `StringPool`, `FileCursor`, `MoraGrid` and `NavDatabaseRegistry` are classes whose methods are tied to values
by their postconditions, and `BuildRouteString` rewrites an array. What the values promise is proved in lemmas beside them.

How the main results fit together:

* `AStar.FindShortestPathMulti` answers with a cheapest accepted path, or with nothing exactly when there is none. Its
  loop invariants are lemmas of `AStarInvariants`; `AStarResults` turns them into optimality. With the turn penalty on, the
  path is still simple and its reported cost and distance are the re-cost of its vertices. `SearchRuns` writes the search
  as a function of task, sources and goals; the method returns that function's value on any workspace and memory.
* `YenPartition` splits the loopless paths by accepted prefix into disjoint classes that cover everything not yet
  returned; `YenSpurs` shows a spur search answers exactly one class, at the cost the stitched path pays beyond the root,
  turns included; `Yen` puts the two together and shows the patched tables are those a fresh spur would build.
  `YenAnswers` writes every spur's answer as a function of the accepted paths; whatever the turn penalty, each path after the
  first is the first, by cost and then vertices, of the answers of all accepted prefixes, so Lawler's start index and the
  candidates carried along change nothing (`Yen.YenRun`, `Yen.YenRunIsOne`).
* `ForcedPicks` shows the one-parent rule reaches every index vector once; `ForcedStitch` bounds a stitched path by its
  hops; `ForcedMerge` concludes that whatever was emitted before the budget ran out is never undercut. The greedy fallback is
  a function too, `ForcedRouter.GreedyPath`, and every hop of it reports what the whole path pays.
* `ContainerRoundTrips.OpenUndoesBuild`, with `CifpStore.FetchIsExact`, follows a graph and a set of procedures from the
  encoder through the container to the reader. Since a round trip cannot tell two fields from each other, `GraphBytes`,
  `CifpBytes` and `ContainerBytes` read numbers and texts off the bytes by position and show that whatever is decoded or
  opened is what stands there. `ContainerDamage` and `Checksums` say which damage cannot pass unnoticed.

Three results are negative, stated exactly and shown on an input. A lone blocked vertex is the one path on which re-cost
and search differ (`PathCosts.RecostAgreesWithSearch`, `PathCosts.LoneBlockedVertexIsPriced`). Refolding a filed route is stable exactly when no group of two or more legs was
filed as DCT (`RouteStrings.RefoldIsStable`, `RouteStrings.DctInsideConcurrencyIsUnstable`). A cache with long provenance texts opens
but cannot be listed (`Containers.ListedWhenShort`, `ContainerExamples.LongProvenanceOpensUnlisted`).

Where code and comment part ways the model follows the code. The comment at `libs/engine/io/cache/byte_io.h:107-110` says
that every read after an error returns zero; `U8` does not test the flag, so what is proved is that the flag stays set.
The comment at `libs/engine/core/constraints/mora_constraint.h:129-130` speaks of every cell passed through; a cell met at
one corner only may be skipped, so what is proved covers open interiors.

Assumptions about the world are properties of the data: every edge is at least as long as the chord between its ends
allows, no distance is negative, and the tables a caller passes match its endpoints.

## Model

| member | source | states |
|---|---|---|
| SearchModel.PackedOrdersKeys | libs/engine/core/graph/astar.h:25-31 | between vertices, the packed 64-bit keys of directed edges are equal only for the same pair and are ordered by start, then by end |
| SearchModel.FilterBlocks | libs/engine/core/graph/astar.h:43-63 | the filter blocks airports from the first up to but not including the end of their range, and every banned vertex; a negative start blocks no airport |
| TurnCurves.TurnIsLeastRotation | libs/engine/core/graph/astar.h:76-86 | the turn between two headings is the least rotation that takes one to the other, either way round, and the same both ways |
| TurnCurves.CurveKnots | libs/engine/core/graph/astar.h:108-147 | the calibrated penalty is 0 at 45 degrees, 20 NM at 90 and 200 NM at 180, with 10 and 65 halfway along the ramps |
| TurnCurves.TurnsAreCharged | libs/engine/core/graph/yen_kshortest.cc:74-113 | with the calibrated penalty a turn within 45 degrees is free whichever way round, a reversal costs 200 NM, an unknown heading nothing |
| TurnCurves.SharperTurnsCostMore | libs/engine/core/graph/astar.h:88-149 | the calibrated turn penalty never falls as the turn gets sharper, stays within 200 NM, and is never negative, as forced routing asks |
| SearchModel.EdgeAllowed | libs/engine/core/graph/astar.cc:27-70 | an edge is allowed exactly when no constraint blocks it; its price is its length plus every penalty |
| SearchModel.PenaltiesAddUp | libs/engine/core/graph/astar.cc:27-70 | constraint lists one after the other block what either blocks and otherwise charge both charges |
| SearchModel.ScanIsFirstCheapest | libs/engine/core/graph/astar.cc:74-100 | scanning a row picks the cheapest usable parallel edge, the first on a tie |
| SearchModel.SelectEdge | libs/engine/core/graph/astar.cc:74-100 | returns the cheapest allowed edge and its price, or none exactly when no edge is usable |
| SearchModel.BuildSeedTable | libs/engine/core/graph/astar.cc:118-131 | the table holds the least seed landing on each vertex and -1 elsewhere, out-of-range endpoints ignored |
| SearchModel.BuildBearingTable | libs/engine/core/graph/astar.cc:133-151 | the table holds the heading of the endpoint whose seed the seed table keeps |
| Workspaces.SearchWorkspace.Reset | libs/engine/core/graph/astar.cc:102-116 | growing the arrays keeps stale slots from ever matching a running generation |
| Workspaces.SearchWorkspace.NextGeneration | libs/engine/core/graph/astar.h:231-303 | whatever earlier searches left, a new generation reads as no labels and nothing closed |
| Workspaces.SearchWorkspace.Relax | libs/engine/core/graph/astar.h:269-281 | records exactly one label and leaves all others and the closed set alone, on a dirty slot too |
| Workspaces.SearchWorkspace.MarkClosed | libs/engine/core/graph/astar.h:231-303 | closes exactly one vertex and keeps every label |
| Workspaces.SearchWorkspace.PopHeap | libs/engine/core/graph/astar.cc:266-270 | takes the first entry with the least f, so what is popped is a function of the heap |
| Workspaces.PoppedIsLeast | libs/engine/core/graph/astar.cc:266-270 | the popped entry is least and the rest of the heap is exactly what was left |
| Workspaces.MultiGoalHeuristic.Eval | libs/engine/core/graph/astar.cc:182-209 | the remembered bound is the least chord-plus-seed over the goals, at every call |
| Workspaces.BoundIsLeast | libs/engine/core/graph/astar.cc:182-209 | the bound is no more than chord plus seed to any goal on the graph, and is that of some goal |
| Workspaces.BoundIsConsistent | libs/engine/core/graph/astar.cc:182-209 | crossing an edge never lowers the bound by more than the edge's length |
| Workspaces.BoundAtGoal | libs/engine/core/graph/astar.cc:182-209 | at a goal the bound is at most the goal's own seed |
| AStarInvariants.CloseKeeps | libs/engine/core/graph/astar.cc:266-285 | closing the popped vertex keeps the search invariant: closed labels final, open ones queued, and every target not closed before labelled at no more than a closed vertex gives it, turn included |
| AStarInvariants.StaleKeeps | libs/engine/core/graph/astar.cc:271-273 | dropping a stale heap entry keeps the invariant |
| AStarInvariants.PassKeeps | libs/engine/core/graph/astar.cc:308-322 | skipping a closed, blocked or no better edge keeps the invariant |
| AStarInvariants.RelabelKeeps | libs/engine/core/graph/astar.cc:340-345 | a better label with its heap entry keeps the invariant |
| AStarInvariants.SettledTarget | libs/engine/core/graph/astar.cc:274-285 | with a consistent bound no edge improves a vertex that is already closed |
| AStarResults.PathToIsWalk | libs/engine/core/graph/astar.cc:353-362 | the path rebuilt from predecessors is a walk with the label's cost, length and heading |
| AStarResults.PathToRanks | libs/engine/core/graph/astar.cc:353-356 | vertices on the rebuilt path were closed in strictly increasing order, so it ends and repeats nothing |
| AStarResults.Frontier | libs/engine/core/graph/astar.cc:266-347 | along any walk there is an open or final vertex labelled no dearer than the walk |
| AStarResults.NothingBetter | libs/engine/core/graph/astar.cc:274-285 | stopping once no open entry beats the best total loses no cheaper path |
| AStar.SeedSources | libs/engine/core/graph/astar.cc:244-262 | after seeding, the labels are exactly the cheapest unblocked in-range sources |
| AStar.Rebuild | libs/engine/core/graph/astar.cc:353-356 | following predecessors and reversing yields the tree path, and ends |
| SearchRuns.TrailIsPath | libs/engine/core/graph/astar.cc:353-356 | following the labels back from the best goal gives the tree path, so the returned vertices depend on the labels alone |
| AStar.Explore | libs/engine/core/graph/astar.cc:263-347 | the loop ends with the best goal and nothing open that could beat it, at the end of the run that the inputs alone determine |
| AStar.FindShortestPathMulti | libs/engine/core/graph/astar.cc:216-363 | on any dirty workspace: found exactly when some path is accepted, simple, priced as its re-cost, least with turns off; with any turn penalty the least ending over all closed vertices, nothing open promising less; and the very result that the task, the sources and the goals determine, whatever earlier searches left behind |
| PathCosts.RecostAgreesWithSearch | libs/engine/core/graph/yen_kshortest.cc:49-161 | edges first, turns afterwards: the re-cost and the search agree on a path exactly unless it is a lone seeded vertex the node filter blocks |
| PathCosts.LoneBlockedVertexIsPriced | libs/engine/core/graph/yen_kshortest.cc:54-62 | on one vertex that is source, goal and banned, the re-cost prices a path the search refuses |
| PathCosts.WalkIsEdgesPlusTurns | libs/engine/core/graph/yen_kshortest.cc:74-113 | adding all edges first and all turns after gives the cost of walking step by step |
| PathCosts.CostOfPath | libs/engine/core/graph/yen_kshortest.cc:49-114 | fails exactly on a blocked vertex or unusable step, and otherwise sums edges and turns |
| PathCosts.CostOfPathMulti | libs/engine/core/graph/yen_kshortest.cc:139-161 | the whole path's cost and distance with both seeds, or failure exactly when an end is unseeded or a step unusable |
| YenCandidates.MergeBanned | libs/engine/core/graph/yen_kshortest.cc:19-30 | the merged list is sorted, free of duplicates, and bans what either list bans; being in order it is determined by that |
| YenCandidates.Insert | libs/engine/core/graph/yen_kshortest.cc:121-132 | inserting keeps the (cost, vertices) order and drops an equal entry |
| YenCandidates.LexIsDictionary | libs/engine/core/graph/yen_kshortest.cc:121-132 | vertex lists are ordered as in a dictionary: by the first position where they part, a list before its continuations |
| YenCandidates.FirstIsLeast | libs/engine/core/graph/yen_kshortest.cc:375-385 | the first candidate is the least, and erasing it removes exactly it |
| YenPartition.ClassesAreDisjoint | libs/engine/core/graph/yen_kshortest.cc:257-373 | no path deviates from the accepted ones at two different prefixes |
| YenPartition.ClassesCover | libs/engine/core/graph/yen_kshortest.cc:257-373 | every loopless accepted path not yet returned deviates at some accepted prefix, super-source and super-sink included |
| YenPartition.AcceptBest | libs/engine/core/graph/yen_kshortest.cc:375-387 | after accepting the cheapest candidate only prefixes from its deviation index on need a new spur |
| YenPartition.SpurIsNew | libs/engine/core/graph/yen_kshortest.cc:233-247 | a spur's answer never duplicates a waiting candidate |
| YenPartition.CandidateFor | libs/engine/core/graph/yen_kshortest.cc:253-388 | once a round's spurs are done each remaining path is matched by a candidate no dearer |
| YenSpurs.SpurIsSound | libs/engine/core/graph/yen_kshortest.cc:298-373 | whatever the spur search accepts completes the root to a path of the root's class, costing the root plus what the spur search charged, turns included |
| YenSpurs.WalkLifts | libs/engine/core/graph/yen_kshortest.cc:341-369 | started on the heading the root arrives on, a spur walk adds to the root exactly its own cost with the turn penalty on, and arrives on the same heading |
| YenSpurs.SpurIsComplete | libs/engine/core/graph/yen_kshortest.cc:298-373 | every path of the root's class is the root completed by a path the spur search accepts, at the same cost, turns included |
| YenSpurs.SourceSpurIsClass | libs/engine/core/graph/yen_kshortest.cc:272-296 | the super-source spur accepts exactly the paths that start at an unused fix, at the same cost |
| YenSpurs.LoneGoalSpurIsEmpty | libs/engine/core/graph/yen_kshortest.cc:325-330 | skipping the spur when the only goal is taken loses nothing |
| YenAnswers.AnswerStands | libs/engine/core/graph/yen_kshortest.cc:298-373 | a spur's answer depends on the accepted paths only through how they continue after its root, so an answer found in an earlier round still stands |
| YenAnswers.WaitsOn | libs/engine/core/graph/yen_kshortest.cc:375-387 | after an acceptance the remaining candidates are exactly the answers of the accepted prefixes that need no new spur |
| YenAnswers.FirstWaitsIsFirst | libs/engine/core/graph/yen_kshortest.cc:378-386 | with any turn penalty, the first candidate is the first, by cost and then vertices, of what a fresh spur from every accepted prefix answers |
| Yen.SearchSpur | libs/engine/core/graph/yen_kshortest.cc:331-371 | the patched tables equal those built from scratch for the spur's one source and remaining goals, the answer is the one such a search gives, and its cost is what the stitched path pays beyond the root |
| Yen.SpurAtVertex | libs/engine/core/graph/yen_kshortest.cc:298-373 | one spur leaves its class represented by its answer, the goal table restored, and a single live entry in the bearing table |
| Yen.SpurRound | libs/engine/core/graph/yen_kshortest.cc:270-373 | starting at the deviation index, one round leaves every class represented, and the candidates the answers of all accepted prefixes |
| Yen.RunRounds | libs/engine/core/graph/yen_kshortest.cc:249-390 | the rounds return distinct priced paths, all of them if fewer than k, the cheapest with turns off; with any turn penalty each path after the first is the first that any accepted prefix offers |
| Yen.YenRunIsOne | libs/engine/core/graph/yen_kshortest.cc:249-390 | only one list of paths meets that description, so starting spurs at the deviation index and keeping candidates gives what spurring every prefix in every round would |
| Yen.FindKShortestPathsMulti | libs/engine/core/graph/yen_kshortest.cc:175-390 | at most k distinct loopless paths with their re-costs; every path if fewer than k; with turns off ascending and none outside cheaper; with any turn penalty the search's own answer first, then always the first path any accepted prefix's spur answers |
| ForcedPicks.ChildHasParent | libs/engine/io/navdb/forced_router.cc:201-259 | advancing at or past the last advanced hop gives a vector whose one parent is the vector advanced |
| ForcedPicks.ParentHasChild | libs/engine/io/navdb/forced_router.cc:201-259 | every index vector but the first is generated by its parent |
| ForcedPicks.WaitingAncestor | libs/engine/io/navdb/forced_router.cc:190-260 | an unexplored vector always has a waiting ancestor no larger at any hop |
| ForcedPicks.ChildrenAreNew | libs/engine/io/navdb/forced_router.cc:251-259 | no index vector is generated twice |
| ForcedStitch.JoinIsPriced | libs/engine/io/navdb/forced_router.cc:27-72 | a stitched route never costs less than its hops' sum, and exactly that with turns off |
| ForcedStitch.JoinDetermines | libs/engine/io/navdb/forced_router.cc:27-72 | a loopless stitch determines the hop paths it was made from |
| ForcedMerge.LowerGrows | libs/engine/io/navdb/forced_router.cc:218-224 | raising indices never lowers the bound the frontier is ordered by |
| ForcedMerge.StitchAndCost | libs/engine/io/navdb/forced_router.cc:27-72 | joins parts at shared seams and re-costs the whole; fails on a broken seam or a repeated vertex |
| ForcedMerge.StitchPick | libs/engine/io/navdb/forced_router.cc:180-188 | stitching an index vector succeeds exactly when it joins to a loopless accepted route, at no less than its bound |
| ForcedMerge.AllFirm | libs/engine/io/navdb/forced_router.cc:231-241 | until the budget runs out with picks left, no valid stitch outside the emitted routes undercuts any of them |
| ForcedMerge.FitsMeansFinished | libs/engine/io/navdb/forced_router.cc:231-241 | an unused budget, or a product no larger than the budget, never cuts the enumeration short |
| ForcedMerge.MergeHops | libs/engine/io/navdb/forced_router.cc:190-263 | routes come out distinct and ascending; those emitted before the budget ran out are never undercut; when it did not, they are the k cheapest valid stitches, or all of them |
| ForcedRouter.SortByCost | libs/engine/io/navdb/forced_router.cc:159-163 | the hop's alternatives are a stable sort of the search's results: ascending, and unchanged within each cost |
| ForcedRouter.Greedy | libs/engine/io/navdb/forced_router.cc:265-308 | the fallback builds one loopless route through the fixes in order, each hop the answer of its own search, barred from the vertices left behind and the fixes still ahead; or it stops where a hop has no path |
| ForcedRouter.HopCostIsPaid | libs/engine/io/navdb/forced_router.cc:285-304 | started on the heading the path so far arrives on, a greedy hop is charged exactly what the whole path pays for it, the turn at the fix included |
| ForcedRouter.HopCandidates | libs/engine/io/navdb/forced_router.cc:143-165 | one hop's list is the stable sort by cost of what its own run of the K-shortest search returns, and empty only when the hop is unroutable |
| ForcedRouter.GreedyOnlyWhenNothingStitches | libs/engine/io/navdb/forced_router.cc:261-271 | unless the budget ran out, the fallback runs only when no combination of alternatives stitches |
| ForcedRouter.FindPaths | libs/engine/io/navdb/forced_router.cc:135-308 | none when a hop is unroutable; else the best stitches of the hop lists the K-shortest search returns, with the number of picks explored and of routes that are firm; else the one greedy route, every hop of it priced as flown, or none where a hop has no path |
| AirwayExpansion.Settle | libs/engine/io/navdb/parse.cc:146-154 | a fresh queue entry's vertex is final when popped |
| AirwayExpansion.DropStale | libs/engine/io/navdb/parse.cc:147-151 | skipping an entry that was since beaten keeps the search invariant |
| AirwayExpansion.Relabel | libs/engine/io/navdb/parse.cc:155-174 | a shorter label with its queue entry keeps the search invariant |
| AirwayExpansion.LabelIsFinal | libs/engine/io/navdb/parse.cc:143-178 | when the search stops no walk along the airway is shorter than the label of the target |
| AirwayExpansion.Trace | libs/engine/io/navdb/parse.cc:176-184 | following predecessors ends at the start and yields a shortest walk |
| AirwayExpansion.ExpandAirway | libs/engine/io/navdb/parse.cc:132-185 | non-empty exactly when the target is another fix the airway reaches; then a shortest loopless chain of its fixes |
| AirwayExpansion.CarriesEachName | libs/engine/io/navdb/parse.cc:155-174 | an edge is on every airway its stored name lists and on no other, so a shared leg belongs to each of its airways |
| DesignatorLists.ListedIffRun | libs/engine/core/routing/route_string.cc:36-53 | a name is listed exactly when it is a maximal hyphen-free stretch of the field |
| DesignatorLists.SplitUndoesJoin | libs/engine/core/routing/route_string.cc:36-53 | splitting a joined list of non-empty names gives the list back |
| DesignatorLists.SplitDesignators | libs/engine/core/routing/route_string.cc:36-53 | the loop lists exactly the names between hyphens, empty ones dropped |
| RouteStrings.Intersect | libs/engine/core/routing/route_string.cc:15-24 | keeps what both lists name, in the first list's order |
| RouteStrings.BlockIsShared | libs/engine/core/routing/route_string.cc:68-95 | a group's name is a designator of each of its legs, none of them a plain DCT leg |
| RouteStrings.ReachIsFarthest | libs/engine/core/routing/route_string.cc:68-95 | a group grows as far as any segment from its first leg could |
| RouteStrings.GreedyIsFewest | libs/engine/core/routing/route_string.cc:28-35 | no cut of the legs into segments with a shared designator needs fewer segments than the greedy groups |
| RouteStrings.GreedyIsACut | libs/engine/core/routing/route_string.cc:68-113 | the greedy groups are themselves such a cut, so their number is the least |
| RouteStrings.ViaIsOwnDesignator | libs/engine/core/routing/route_string.cc:95-113 | a rewritten leg keeps its ends and length and is filed under one of its own designators |
| RouteStrings.RefoldIsStable | libs/engine/core/routing/route_string.cc:55-115 | folding the filed legs again gives the same string exactly when no group of two or more legs was filed as DCT |
| RouteStrings.DctAloneIsStable | libs/engine/core/routing/route_string.cc:55-115 | refolding is stable whenever DCT occurs only as a whole via |
| RouteStrings.DctInsideConcurrencyIsUnstable | libs/engine/core/routing/route_string.cc:55-115 | two legs on a concurrency that lists DCT are filed as one direct leg and come apart when refolded |
| RouteStrings.BuildRouteString | libs/engine/core/routing/route_string.cc:55-115 | in place, the legs become their filed form and the string names each group once |
| EndpointPlans.CombinedIsCheaper | libs/engine/io/navdb/endpoint_planner.cc:99-123 | merging keeps the cheaper effective seed with its own headings, splice and procedure in front; on a tie the connection that was there |
| EndpointPlans.MergeConnection | libs/engine/io/navdb/endpoint_planner.cc:101-123 | one connection per fix before means one per fix after, the incoming fix has one, and every other fix's connection is untouched |
| EndpointPlans.FoldedIsGated | libs/engine/io/navdb/endpoint_planner.cc:99-141 | after any number of merges a connection's seed, headings, splice and front procedure all come from one of the connections merged at its fix |
| EndpointPlans.SortConnectionsBySeed | libs/engine/io/navdb/endpoint_planner.cc:131-141 | the same connections, ordered by effective seed and then fix |
| EndpointPlans.PoolArrivals | libs/engine/io/navdb/endpoint_planner.cc:253-271 | STARs and approaches folded into one pool, cheapest effective seed per fix, in order; it counts as procedures or as approaches exactly when only that kind is in it |
| EndpointPlans.ToSearchEndpoints | libs/engine/io/navdb/endpoint_planner.cc:170-179 | one endpoint per connection, on its heading, at its seed plus 15 NM when an approach competes with a STAR |
| EndpointPlans.AvoidedSeed | libs/engine/io/navdb/endpoint_planner.cc:170-179 | dropping avoided fixes leaves every other fix's seed alone |
| EndpointPlans.SeedIsEffective | libs/engine/io/navdb/endpoint_planner.cc:91-97 | with one connection per fix the search is seeded with exactly its effective seed |
| RouteAssembly.RideLeg | libs/engine/io/navdb/route_assembler.cc:98-111 | a leg carries the airway and length of the very edge the search rode |
| RouteAssembly.FlownIsSeed | libs/engine/io/navdb/route_assembler.cc:49-54 | a terminal's legs add up to its seed exactly when the splice leg is no longer than the seed |
| RouteAssembly.TerminalLegsAreNamed | libs/engine/io/navdb/route_assembler.cc:83-126 | the leg that touches the airport is the SID or STAR when there is one; the leg to or from an inserted gate is DCT and has the splice length |
| RouteAssembly.PublishedIsFirst | libs/engine/io/navdb/route_assembler.cc:141-163 | the procedure filed is the first named one that is not an approach, and none exactly when there is none |
| RouteAssembly.FilingKeeps | libs/engine/core/routing/route_string.cc:55-115 | filing under airway names changes neither the legs' ends nor their total |
| RouteAssembly.MakeRoute | libs/engine/io/navdb/route_assembler.cc:36-138 | points and legs chain from airport to airport, the legs are filed as ridden, and their lengths are seeds plus edges |
| RouteAssembly.Assemble | libs/engine/io/navdb/route_assembler.cc:214-293 | one route per non-empty path, in order, with the search's bump taken off where it was added |
| RouteAssembly.PathDistance | libs/engine/core/graph/yen_kshortest.cc:139-161 | a returned path's distance is its two seeds plus the edges between |
| RouteAssembly.ReportedTotal | libs/engine/io/navdb/route_assembler.cc:265-275 | the reported total is the geographic distance, less a bump that was never added |
| RouteAssembly.LegsAddUpToTotal | libs/engine/io/navdb/route_assembler.cc:36-275 | the legs add up to the total exactly when no splice leg outruns its seed and the bump added is the bump removed |
| RouteAssembly.PhasesAddUpToTotal | libs/engine/io/navdb/route_assembler.cc:128-133 | departure, enroute and arrival add up to the total |
| RouteAssembly.PooledPlansBalance | libs/engine/io/navdb/endpoint_planner.cc:253-271 | the planner's own pools always remove what they added |
| MoraGrids.FloorToIntIsFloor | libs/engine/core/domain/mora_grid.h:101-120 | the clamped truncation is the mathematical floor on every sane coordinate |
| MoraGrids.IndexIsBijective | libs/engine/core/domain/mora_grid.h:122-128 | exactly the cells of the globe have a slot, no two share one, and every slot is some cell's |
| MoraGrids.WrapIsPeriodic | libs/engine/core/domain/mora_grid.h:51-90 | columns a whole number of turns apart are the same column |
| MoraGrids.MoraGrid.SetCell | libs/engine/core/domain/mora_grid.h:27-48 | sets one cell, ignores corners off the globe, and keeps the known-cell count exact |
| MoraGrids.MoraGrid.MoraAt | libs/engine/core/domain/mora_grid.h:51-90 | on the closed globe the cell under the position, beyond it unknown |
| MoraGrids.MoraGrid.EmptyMeansNothingKnown | libs/engine/core/domain/mora_grid.h:84 | the grid reports empty exactly when every cell is unknown |
| MoraGrids.FromCells | libs/engine/core/domain/mora_grid.h:92-106 | a saved grid comes back with its count; a wrong number of cells gives an empty grid |
| MoraWalks.CrossingKeeps | libs/engine/core/constraints/mora_constraint.h:134-173 | a crossing passes by no cell the segment enters, and steps into a touched one |
| MoraWalks.NotPassedBy | libs/engine/core/constraints/mora_constraint.h:162-171 | the axis that steps is never the one a cell still ahead shares |
| MoraWalks.WalkCells | libs/engine/core/constraints/mora_constraint.h:134-173 | one unit step per crossing from the first cell to the last, every cell entered is visited, and the result is their highest value |
| MoraConstraints.UnwrapMovesByTurns | libs/engine/core/constraints/mora_constraint.h:106-127 | continuing longitudes moves each point by whole turns |
| MoraConstraints.TrackPasses | libs/engine/core/constraints/mora_constraint.h:68-125 | the track runs from end to end through every great-circle point of a long leg and nothing else, each moved by whole turns next to the one before |
| MoraConstraints.ShiftedReadsSame | libs/engine/core/constraints/mora_constraint.h:68-71 | a track across the antimeridian reads the cells that lie under it |
| MoraConstraints.MaxMoraAlongLeg | libs/engine/core/constraints/mora_constraint.h:57-127 | the result clears every cell the track enters, the cells under both ends and under every great-circle point of a long leg, and is attained by a cell the track touches |
| MoraConstraints.Allows | libs/engine/core/constraints/mora_constraint.h:42-54 | an allowed edge clears every cell its track enters and the ground under its ends and great-circle points; a refused one touches a cell whose floor is above the highest requested level |
| BitMasks.DropsLowest | libs/engine/core/constraints/airway_rule_constraint.h:120-123 | m & (m - 1) drops exactly the lowest bit |
| BitMasks.SumBits | libs/engine/core/constraints/airway_rule_constraint.h:120-123 | the bit-clearing loop adds each set position's share exactly once |
| AirwayRules.ResolveAirwayRules | libs/engine/io/navdb/constraint_assembly.cc:63-123 | a bit is set exactly where its rule matches the region or a split designator; more than 32 rules are refused |
| AirwayRules.EvaluateRules | libs/engine/core/constraints/airway_rule_constraint.h:99-125 | the mask evaluation gives the verdict of the plain rules on every edge |
| AirwayRules.VerdictIsSafe | libs/engine/core/constraints/airway_rule_constraint.h:86-125 | rules never charge a negative cost and never touch a direct edge |
| AirwayRules.ListsNameAirways | libs/engine/core/constraints/airway_rule_constraint.h:38-58 | an exact list without an empty entry names its own airways only; a prefix list names whatever starts with an entry, however it goes on |
| AirwayRules.ListsNameRegions | libs/engine/core/constraints/airway_rule_constraint.h:17-36 | a region list names what starts with an entry, and every region when it or one of its entries is empty |
| AirwayRules.EitherEndCounts | libs/engine/core/constraints/airway_rule_constraint.h:99-107 | a matching region at either end is enough, and so is one name of a shared airway |
| AirwayRules.RuleListsAddUp | libs/engine/core/constraints/airway_rule_constraint.h:108-125 | two rule lists together block what either blocks and otherwise charge the sum of both |
| AirwayRules.OneRule | libs/engine/core/constraints/airway_rule_constraint.h:99-125 | one rule that applies blocks, or charges its fraction of the distance; one that does not changes nothing |
| Checksums.ChecksumIsReference | libs/engine/io/cache/crc32c.h:36-67 | the table-driven checksum is the bit-serial division by 0x82F63B78 |
| Checksums.ChecksumContinues | libs/engine/io/cache/crc32c.h:38-50 | continuing from the first part's checksum gives the checksum of the whole |
| Checksums.Update | libs/engine/io/cache/crc32c.h:42-50 | the byte loop with a generated table continues a checksum |
| Checksums.MakeTable | libs/engine/io/cache/crc32c.h:52-66 | the generated table holds eight bit-serial steps of every index |
| Checksums.Compute | libs/engine/io/cache/crc32c.h:36 | a whole message's checksum |
| Checksums.CheckValue | libs/engine/io/cache/crc32c.h:36-67 | the text "123456789" has the published check value 0xE3069283 |
| Checksums.FourByteErrorsAreCaught | libs/engine/io/cache/crc32c.h:36-67 | equal-length messages differing only within four consecutive bytes never share a checksum |
| ByteIO.ValueOfWritten | libs/engine/io/cache/byte_io.h:48-66 | a number that fits its width reads back |
| ByteIO.ValueAppends | libs/engine/io/cache/byte_io.h:126-150 | each further byte counts 256 times as much as the one before: the least significant comes first |
| ByteIO.WrittenOfValue | libs/engine/io/cache/byte_io.h:126-150 | bytes that were read write back |
| ByteIO.SignedBothWays | libs/engine/io/cache/byte_io.h:40-104 | signed and unsigned forms of one width undo each other |
| ByteIO.PackedIsInjective | libs/engine/io/cache/byte_io.h:30-105 | a record's bytes determine its fields |
| ByteIO.ByteWriter.Text | libs/engine/io/cache/byte_io.h:84-99 | a text and its length, or a latched failure and no bytes when the length cannot be written |
| ByteIO.ByteReader.U8 | libs/engine/io/cache/byte_io.h:118-124 | the next byte, or zero and a latched failure at the end |
| ByteIO.ByteReader.Unsigned | libs/engine/io/cache/byte_io.h:126-150 | the number the next bytes spell; short input latches the failure |
| ByteIO.ByteReader.Block | libs/engine/io/cache/byte_io.h:191-226 | a bulk read takes all its numbers or none |
| ByteIO.ByteReader.Text | libs/engine/io/cache/byte_io.h:178-190 | a length and that many bytes, or a latched failure |
| ByteIO.ResolveGrows | libs/engine/io/cache/byte_io.h:238-265 | a reference into the pool stays good whatever is added later |
| ByteIO.ResolveRef | libs/engine/io/cache/byte_io.h:270-280 | a reference outside the pool clears the flag and gives no text |
| ByteIO.StringPool.Add | libs/engine/io/cache/byte_io.h:245-265 | equal texts share a reference, the pool only grows, and while it is addressable the reference names the text |
| Groups.ReadGroups | libs/engine/io/cache/graph_codec.cc:354-380 | variable-length records are read exactly when they are there, each row count checked against the bytes left |
| GraphWire.LayoutIsInjective | libs/engine/io/cache/graph_codec.cc:77-91 | a section's bytes determine its tables |
| GraphWire.CandidateFits | libs/engine/io/cache/graph_codec.cc:260-300 | whatever the bytes really hold passes every count check, so none is refused wrongly |
| GraphWire.ReadCounts | libs/engine/io/cache/graph_codec.cc:245-300 | accepted counts fit the bytes there are before anything is sized by them |
| GraphWire.ReadWire | libs/engine/io/cache/graph_codec.cc:231-390 | on any bytes: the tables they hold, consumed to the last byte, or nothing exactly when they hold none |
| GraphCodec.CheckOffsets | libs/engine/io/cache/graph_codec.cc:396-410 | offsets pass exactly when they run from 0 to the edge count without stepping back |
| GraphCodec.FourVertexKinds | libs/engine/io/cache/graph_codec.cc:23-28 | exactly the four known kinds a vertex may have pass |
| GraphCodec.SignedFieldsAreTwosComplement | libs/engine/io/cache/byte_io.h:148-149 | signed fields are read and written as the two's complement of their width |
| GraphCodec.OffsetsStayInRange | libs/engine/io/cache/graph_codec.cc:396-410 | every vertex's row of edges lies within the edge array |
| GraphCodec.LookupsStayInRange | libs/engine/io/cache/graph_codec.cc:390-430 | in a graph that passes, a vertex's row lists edges that exist, each to a vertex of a known kind on a named airway, with an elevation if that vertex is an airport |
| GraphCodec.HoldsOne | libs/engine/io/cache/graph_codec.cc:231-461 | no bytes hold two different graphs |
| GraphCodec.Decode | libs/engine/io/cache/graph_codec.cc:231-461 | on any bytes and pool: the one valid graph they hold, and nothing exactly when they hold none |
| GraphBytes.HeldIsSpelled | libs/engine/io/cache/graph_codec.cc:40-91 | whatever graph a section holds, each field stands at its own place: counts, then 34-byte vertices, elevations, offsets, 15-byte edges, names, cells and sectors with 12-byte arcs |
| GraphEncoding.Encode | libs/engine/io/cache/graph_codec.cc:92-229 | succeeds exactly on an encodable snapshot; the bytes then hold it, flags normalised, while its counts fit |
| GraphEncoding.EncodableIsValid | libs/engine/io/cache/graph_codec.cc:92-229 | what the encoder accepts is a graph the decoder would accept |
| GraphEncoding.HeldFits | libs/engine/io/cache/graph_codec.cc:92-229 | a snapshot whose counts do not fit their fields is held by no bytes at all |
| GraphEncoding.DecodeUndoesEncode | libs/engine/io/cache/graph_codec.cc:92-461 | decoding gives back the encoded snapshot, against the pool however much it has grown |
| CifpSegments.ReadSegment | libs/engine/io/cache/cifp_codec.cc:143-271 | the records the bytes hold, or nothing exactly when they hold none |
| CifpSegments.SegmentHoldsOne | libs/engine/io/cache/cifp_codec.cc:143-271 | no bytes hold two different sets of procedures |
| CifpSegments.LegsInRange | libs/engine/io/cache/cifp_codec.cc:210-238 | exactly which field values of a leg pass: 24 path terminators, five altitude kinds, three turn letters, and a position missing altogether or within 90 and 180 degrees, by the floats' exponent and fraction |
| CifpCodec.DeserializeSegment | libs/engine/io/cache/cifp_codec.cc:143-271 | on any bytes and pool: the valid procedures they hold, and nothing exactly when they hold none |
| CifpBytes.HeldIsSpelled | libs/engine/io/cache/cifp_codec.cc:42-64 | whatever procedures a segment holds, each field stands at its own place: 33-byte heads, 48-byte legs, 28-byte runways |
| CifpCodec.SerializeSegment | libs/engine/io/cache/cifp_codec.cc:93-139 | the bytes hold the procedures if these are valid and every count fits |
| CifpCodec.DeserializeUndoesSerialize | libs/engine/io/cache/cifp_codec.cc:93-271 | decoding gives back the procedures, against the pool however much it has grown |
| FixedNames.LessIsDictionaryOrder | libs/engine/core/domain/fixed_string.h:119-169 | comparing by common prefix and then length is dictionary order |
| FixedNames.LessIsStrictTotal | libs/engine/core/domain/fixed_string.h:119-169 | that order is strict and total, as the sorted indices need |
| FixedNames.KeyLessIsStrictTotal | libs/engine/core/domain/fixed_string.h:43-75 | the order of packed idents is strict and total |
| CifpArchives.ContinueIsJoined | libs/engine/io/cache/cifp_codec.cc:384-393 | folding count and rows one after the other is the checksum of the directory |
| CifpArchives.InsertEntry | libs/engine/io/cache/cifp_codec.cc:437-441 | the index stays sorted and gains exactly the new entry |
| CifpArchives.ReadDirectory | libs/engine/io/cache/cifp_codec.cc:361-395 | the directory that lies within the section and matches its checksum, or nothing exactly when there is none |
| CifpArchives.IndexRows | libs/engine/io/cache/cifp_codec.cc:395-441 | succeeds exactly when every row names a short key and a segment behind the directory |
| CifpArchives.OpenSection | libs/engine/io/cache/cifp_codec.cc:344-442 | opens exactly the sections with a sound directory, into a sorted index of its rows |
| ContainerBytes.DirectoryIsSpelled | libs/engine/io/cache/cifp_codec.cc:65-70 | every 24-byte row of the directory is an entry of the index and every entry a row: key, offset within the section, length, checksum |
| ContainerBytes.SegmentsLieWithin | libs/engine/io/cache/cifp_codec.cc:400-441 | every segment an archive lists lies within its section, behind the directory unless it is empty, under a key of at most seven letters |
| CifpArchives.Find | libs/engine/io/cache/cifp_codec.cc:476-489 | finds an entry with the key exactly when the index has one |
| CifpArchives.Fetch | libs/engine/io/cache/cifp_codec.cc:491-520 | missing only without an entry, found only with checked and decoded data, corrupt otherwise |
| CifpArchives.FetchAll | libs/engine/io/cache/cifp_codec.cc:448-474 | every entry's data by key, or failure exactly when some segment is damaged |
| CifpStore.EncodeSection | libs/engine/io/cache/cifp_codec.cc:275-342 | succeeds exactly on distinct packable keys; the section then stores the procedures, while counts fit |
| CifpStore.SectionBody | libs/engine/io/cache/cifp_codec.cc:318-338 | each segment lies at the offset its row carries |
| CifpStore.StoredSectionOpens | libs/engine/io/cache/cifp_codec.cc:275-442 | a stored section opens, wherever it lies in a file, into an archive of exactly its airports |
| CifpStore.FetchIsExact | libs/engine/io/cache/cifp_codec.cc:491-520 | fetching a stored airport gives exactly its procedures |
| CifpStore.FetchOfOthersIsMissing | libs/engine/io/cache/cifp_codec.cc:491-520 | fetching any other key gives nothing |
| CifpStore.FetchAllAgrees | libs/engine/io/cache/cifp_codec.cc:448-474 | fetching all agrees with fetching each, and adds no key |
| Fronts.FileCursor.Read | libs/engine/io/cache/unified_cache.cc:112-136 | the next bytes, or a failure that sticks |
| Fronts.OneFront | libs/engine/io/cache/unified_cache.cc:439-510 | a file has at most one header and section table |
| Fronts.ReadFront | libs/engine/io/cache/unified_cache.cc:439-510 | the only header the file has, a version mismatch exactly on another version, or damage exactly when there is none |
| Containers.CheckRows | libs/engine/io/cache/unified_cache.cc:494-505 | rows pass exactly when every present section lies within the file |
| Containers.MapSections | libs/engine/io/cache/unified_cache.cc:533-561 | succeeds exactly when each section type is known and occurs once, and finds its row |
| Containers.ReadFrame | libs/engine/io/cache/unified_cache.cc:375-561 | succeeds exactly when header, table, checksums and pool are in order |
| Containers.OpenSections | libs/engine/io/cache/unified_cache.cc:563-615 | returns what the sections hold, or fails exactly when one of them does not read |
| Containers.Open | libs/engine/io/cache/unified_cache.cc:375-616 | on any bytes: exactly what the file holds, a version mismatch, or damage |
| ContainerBytes.OpenedIsSpelled | libs/engine/io/cache/unified_cache.cc:198-279 | whatever a file opens into stands in its bytes: magic, version, texts, flags, checksums, pool, and one section of each type where its row of the table says |
| Containers.ReadHeader | libs/engine/io/cache/unified_cache.cc:319-373 | the header, when it checks out within the first 8192 bytes |
| Containers.ListedWhenShort | libs/engine/io/cache/unified_cache.cc:319-373 | a cache that opens is listed with the same header exactly when its header takes at most 8192 bytes |
| ContainerExamples.LongProvenanceOpensUnlisted | libs/engine/io/cache/unified_cache.cc:319-373 | a cache built from the empty graph and a directory name of 8192 bytes opens with its header and is not listed |
| ContainerBuilds.EncodeParts | libs/engine/io/cache/unified_cache.cc:140-182 | the sections, encoded into one shared pool, hold what was asked for against the final pool |
| ContainerBuilds.WriteHeader | libs/engine/io/cache/unified_cache.cc:198-227 | the header bytes, refused exactly when a provenance text is too long for its length field |
| ContainerBuilds.Build | libs/engine/io/cache/unified_cache.cc:140-312 | the file is its header, table, checksum, pool and sections in order; refused exactly for a refused section, pool or text |
| ContainerRoundTrips.RowsPoint | libs/engine/io/cache/unified_cache.cc:229-265 | the section table of a built file points at the sections, with their checksums |
| ContainerRoundTrips.BuiltIsReadable | libs/engine/io/cache/unified_cache.cc:140-616 | a built file passes every check opening makes |
| ContainerRoundTrips.OpenUndoesBuild | libs/engine/io/cache/unified_cache.cc:140-616 | opening a built file gives back the header, the normalised graph, the details and an archive of every airport |
| ContainerDamage.DamageIsRefused | libs/engine/io/cache/unified_cache.cc:525-605 | up to four consecutive bytes changed inside the pool, the graph or the details make opening refuse the file |
| ContainerDamage.DamagedSegmentHoldsNothing | libs/engine/io/cache/cifp_codec.cc:505-512 | an airport's segment hurt that way holds no procedures at all, so fetching reports it |
| Registries.Find | libs/service/registry.cc:12-25 | the binary search finds a cycle exactly when it is listed |
| Registries.LatestIsNewest | libs/service/registry.cc:12-25 | the last listed cycle is listed and no older than any other |
| Registries.NavDatabaseRegistry.Resolve | libs/service/registry.cc:12-24 | a listed cycle is looked for, an unlisted one is unknown; without a cycle the newest listed one is looked for, or nothing is loaded |
| Registries.NavDatabaseRegistry.EnterLocked | libs/service/registry.cc:26-46 | served exactly what is cached, asleep exactly behind another opener, otherwise the opener; the cache is untouched |
| Registries.NavDatabaseRegistry.ReenterLocked | libs/service/registry.cc:38-46 | keeps waiting exactly while the cycle is being opened; then served what is cached, or the opener |
| Registries.NavDatabaseRegistry.PublishLocked | libs/service/registry.cc:54-65 | no entry that was there changes, a success leaves the cycle cached and served, a failure adds nothing, and the cycle alone is released |
| Registries.StepKeeps | libs/service/registry.cc:26-65 | every step of every call keeps the protocol's invariant, and no cached entry is ever replaced |
| Registries.ReachableIsSafe | libs/service/registry.cc:26-65 | in every interleaving: one opener per cycle at most, and no sleeper whose cycle nobody is opening |
| Registries.ServedAlike | libs/service/registry.cc:26-65 | two calls served for one cycle got the same database |
| Registries.ServedNewest | libs/service/registry.cc:12-65 | in every interleaving a call that names no cycle stays with the newest one listed, and is served what is cached for it |
| Registries.FailureIsRetried | libs/service/registry.cc:55-65 | a failed open leaves no trace, and the next call opens again |
| Registries.OpenedAtMostOnce | libs/service/registry.cc:26-65 | over any run a cycle is opened successfully once if it is cached and never otherwise |
| Registries.NoDeadlock | libs/service/registry.cc:26-65 | while a call is unfinished there is a step to take |
| Registries.CallsFinish | libs/service/registry.cc:26-65 | no schedule of working steps is longer than the potential it starts with |

## Left out

- Floating point: distances, costs and coordinates are exact reals; the comment on consistency up to rounding in the search is not modelled.
- Heaps and ordered sets are sequences with an extract-least operation; among equal entries the search's heap pops the first pushed, where the original follows its heap's layout. `binary_search` in the ban filters is membership.
- Constraints are tables of verdicts per edge, and bearings and chords are tables per pair of vertices; the trigonometry behind them is not modelled, only that an edge is no shorter than its chord bound allows.
- AStar.FindShortestPathMulti: requires that the generation counter of the workspace does not wrap, which takes 2^32 searches.
- Yen.FindKShortestPathsMulti: requires that the searches it may run stay below 2^32, for the same reason.
- ForcedRouter.FindPaths: proved for hop lists as the hop search returns them; routes that no combination of those k alternatives per hop stitches are not compared.
- Optimality over all paths is claimed with the turn penalty off; with it on, the search is greedy, and what is claimed is its own least ending, agreement with the re-cost, distinctness, completeness, and the least spur answer each round.
- ResolvePoint, the token loop of ParseRoute, procedure and runway selection by name, and approach metadata: single-branch lookups that would add easy members.
- Names.AirwayName gives an empty name for an id outside the table, where the original indexes without a check; ids in a decoded graph are always inside.
- MoraConstraints.MaxMoraAlongLeg: the intermediate great-circle points of a long leg are a parameter, since computing them is trigonometry.
- MoraWalks.WalkCells: a cell touched at exactly one corner point may be skipped, as in the original; coverage is of open interiors.
- The decoders read all tables first and then check values, where the original interleaves the two; the bytes accepted are the same.
- Record layouts are tables of field widths; a record is written and read field by field from its table.
- The navaid-detail codec: its section is carried as the bytes it wrote and the texts it interned, checked by its checksum but not decoded.
- Files are immutable byte sequences: temporary files, atomic replacement, positional reads on handles and platform differences are not modelled.
- Containers.Open: the pool length is checked where the pool is read; the original also checks it before the section table, which refuses the same files.
- Containers.ReadHeader: reports only whether the file can be listed, not which error; on a truncated prefix the original may report another version where the model reports none.
- Error messages and error kinds beyond damaged and other version are not modelled.
- ContainerRoundTrips.OpenUndoesBuild: requires a file of less than 2^64 bytes and sections whose counts fit the fields they are written in; beyond that the original truncates silently.
- CifpCodec.SerializeSegment: counts above 2^32 - 1 are truncated by the original; the round trip is stated for counts that fit.
- The registry's condition variable is modelled as sleeping and waking steps with spurious wake-ups; memory ordering is the mutex's.
- The HTTP core, the command line, rendering, the loaders, the graph builder and the procedure connector: plumbing, or foreign code.
