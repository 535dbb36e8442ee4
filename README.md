# Spatial knowledge graph: a verified model

This project models, in Dafny, the core of a knowledge-graph server and its
Python loaders.

The main part is the Rust graph service (`src/services/graph_service.rs`):
- building a graph from the metadata store: one node per markdown file, edges
  weighted by topic co-occurrence counts, initial positions;
- the force-directed layout on the CPU, and the accelerator path with its
  retries and CPU fallback;
- the lifecycle of simulation-loop instances: the process-wide simulation
  mutex, the "loop running" flag, shutdown requests and the shutdown wait;
- the client-facing operations: rate-limited position updates, the
  position cache, pagination, accelerator initialisation and the broadcast
  tick.

The Python side covers:
- the Logseq markdown parsers: link extraction, front matter, node and edge
  records and their JSON dictionaries;
- the page node with its `public::` detection, and the spring-layout world
  that loads public pages;
- the article weight by publication age.

Files:
- `wrappers.dfy`: Option, Result and Outcome.
- `graph_types.dfy`: Vec3, NodeData, Node, Edge, Metadata and GraphData, plus the id-indexed node map mirror.
- `graph_builder.dfy`: `build_graph_from_metadata` and `initialize_random_positions`.
- `physics.dfy`: the CPU layout, the accelerator layout and the retry loop.
- `force_direction.dfy`: which way the pairwise forces point.
- `lifecycle.dfy`: the simulation registry and its shutdown protocol.
- `service.dfy`: the `GraphService` object and its operations.
- `py_text.dfy`: the Python string operations the loaders rely on (`strip`, `splitlines`, `split`, `replace`, the wiki-link regular expression).
- `markdown_parser.dfy`: `parse_markdown_files` and the `to_dict` records.
- `logseq_extractor.dfy`: `parse_markdown_file` and `create_graph_from_logseq`.
- `page_node.dfy`: the page node and `is_page_public`.
- `world.dfy`: the spring-layout world and `load_logseq_data`.
- `article_weight.dfy`: `calculate_weight`.

Conventions of the model:
- Floating-point values are reals. A square root is a parameter, `sqrt`, assumed only to be positive on positive arguments.
- Unordered Rust collections (HashSet, HashMap) are iterated in an arbitrary order. Every property is proved for every order.
- Clocks, random numbers, the accelerator and the file system are parameters:
  - a clock reading is a `now: nat`;
  - the random placement is a function `place`;
  - an accelerator attempt is a record of step outcomes;
  - a directory listing is a sequence of (file name, file text) entries.

Where the code and its documentation disagree, the model follows the code:
- A position update is rate-limited when less than 16 ms have passed since the last accepted one. An update exactly 16 ms later is accepted.
- The stored node id of a metadata record is looked up in the graph's metadata before that map is filled. So it is never found, and every node takes the next value of the id counter. `NumberOne` states this by requiring the looked-up map to be empty.
- `split('.')[0]` gives the node name in `parse_markdown_files`. So `a.b.md` is named `a`, not `a.b`.

## Model

| member | source | states |
|---|---|---|
| GraphBuilder.GraphBuilder.constructor | src/services/graph_service.rs:34 | the rebuild flag starts clear and the id counter at zero |
| GraphBuilder.GraphBuilder.BuildGraphFromMetadata | src/services/graph_service.rs:468-625 | a build while another is in progress fails with "rebuild in progress" and changes nothing; otherwise it succeeds, clears the flag again (the drop guard) and yields a graph satisfying `Built`: one node per trimmed key numbered from the old counter, the aggregated edges, positions from `place`, zero velocity, the id lookup, and the counter advanced by the node count |
| GraphBuilder.Build | src/services/graph_service.rs:488-620 | the node pass, the edge pass over the new nodes and the placement together give a graph satisfying `Built` |
| GraphBuilder.BuiltIdsUnique | src/services/graph_service.rs:502-563 | the nodes of a built graph have pairwise distinct ids, `firstId + i` for the i-th node |
| GraphBuilder.CollectTrimmedKeys | src/services/graph_service.rs:493-498 | the candidate set is exactly the metadata keys with their `.md` suffixes trimmed |
| GraphBuilder.TrimMd | src/services/graph_service.rs:496 | `trim_end_matches(".md")` leaves a prefix of the input that no longer ends in `.md` |
| GraphBuilder.TrimMdAppended | src/services/graph_service.rs:496 | trimming removes every repeated `.md` suffix and nothing more |
| GraphBuilder.BuildNodes | src/services/graph_service.rs:502-563 | one node per candidate, each being `MakeNode` of its candidate with id `firstId + i`; candidates are pairwise distinct; the id lookup maps exactly `firstId ..` to the nodes' metadata ids |
| GraphBuilder.NumberCandidates | src/services/graph_service.rs:502-563 | the loop visits every candidate exactly once, in some order, numbering the nodes consecutively |
| GraphBuilder.NumberOne | src/services/graph_service.rs:504-512 | the stored-id lookup in the (still empty) graph metadata finds nothing, so a node takes the counter's next value, which advances by one |
| GraphBuilder.AllocateId | src/services/graph_service.rs:505-509 | a stored id is used as it is, leaving the counter; without one the counter's value is taken and it advances |
| GraphBuilder.ParseU32OfNatText | src/services/graph_service.rs:508 | parsing the decimal text of any `u32` value gives that value back |
| GraphBuilder.MakeNode | src/services/graph_service.rs:509-557 | the node carries its id and metadata id; its flag is 1 iff a record `<id>.md` exists; with a record it takes the file size, the mass, the trimmed label and the descriptive fields, without one it stays the default node; both start at the origin, at rest |
| GraphBuilder.DescriptiveFields | src/services/graph_service.rs:526-550 | the metadata map holds fileName, name and metadataId (the file name with one `.md` removed), fileSize, nodeSize, hyperlinkCount, sha1 and lastModified; perplexityLink only when non-empty and lastPerplexityProcess only when present |
| GraphBuilder.DescriptiveFieldKeys | src/services/graph_service.rs:526-550 | those are all the keys: the eight fixed ones plus each optional one exactly when it is inserted |
| GraphBuilder.FindNodeId | src/services/graph_service.rs:573-587 | the node found by metadata id is one with that id, and nothing is found exactly when no node has it |
| GraphBuilder.Canonical | src/services/graph_service.rs:592-597 | an edge key exists iff both endpoints exist and differ, and it is the ordered pair (smaller, larger) of the two ids |
| GraphBuilder.ResolveSymmetric | src/services/graph_service.rs:592-597 | a topic count from `s` to `t` and one from `t` to `s` resolve to the same edge key |
| GraphBuilder.SelfCountIgnored | src/services/graph_service.rs:592 | a count between two keys that trim to the same node creates no edge |
| GraphBuilder.BothDirectionsAdd | src/services/graph_service.rs:599-601 | the counts of both directions add up in the weight of their common edge |
| GraphBuilder.AddCount | src/services/graph_service.rs:599-601 | an entry is created at the count or increased by it; other entries are untouched |
| GraphBuilder.AggregateStepResolved | src/services/graph_service.rs:592-602 | adding one resolvable count keeps the edge map equal to the per-pair sums over the counts seen |
| GraphBuilder.AggregateCounts | src/services/graph_service.rs:570-604 | after the loop the edge map's keys are exactly the resolvable pairs, and each weight is the sum of all counts resolving to that pair |
| GraphBuilder.MaterializeEdges | src/services/graph_service.rs:613-617 | one edge per map entry, with the entry's weight, no pair twice, no pair missing |
| GraphBuilder.BuildEdges | src/services/graph_service.rs:570-617 | the edges satisfy `EdgesOf`: canonical pairs of existing nodes, each weighted by its summed counts, no duplicates, every resolvable pair present |
| GraphBuilder.InitializePositions | src/services/graph_service.rs:628-670 | the i-th node is moved to `place(i)` with zero velocity, and nothing else about it changes |
| GraphBuilder.PlacedAtRest | src/services/graph_service.rs:641-658 | placement changes only position and velocity: put back at rest, the placed nodes are the built ones |
| GraphTypes.MirrorIntoSpec | src/services/graph_service.rs:925-928 | mirroring into the id-indexed map keeps its keys, copies each node's data onto the entry with its id, and leaves entries of absent ids alone |
| Physics.CalculateLayoutCpu | src/services/graph_service.rs:815-932 | never fails; the nodes become one CPU step (forces, then integration) of the old nodes; the map mirrors them; an empty graph is returned unchanged |
| Physics.AccumulateForces | src/services/graph_service.rs:828-911 | the force buffer equals the repulsion over all pairs followed by the springs over all edges |
| Physics.RepulsionPass | src/services/graph_service.rs:832-871 | the nested loop over `i < j` applies each pair's repulsion in order |
| Physics.SpringPass | src/services/graph_service.rs:874-911 | the edge loop applies each edge's spring force in order |
| Physics.ForcesBalanced | src/services/graph_service.rs:863-869 | each force is applied equal and opposite, so the accumulated forces sum to zero |
| Physics.DanglingEdgesIgnored | src/services/graph_service.rs:875-878 | an edge whose endpoint is not a node contributes nothing; the forces equal those of the anchored edges alone |
| Physics.Anchored | src/services/graph_service.rs:875-878 | the anchored edges are exactly the edges whose two endpoints are nodes |
| Physics.Integrate | src/services/graph_service.rs:914-923 | new velocity = damping × velocity + time step × force; new position = old position + time step × new velocity; mass and flags unchanged |
| Physics.IntegrateNodes | src/services/graph_service.rs:914-929 | every node integrated with its own force, and the map mirrors the new nodes |
| ForceDirection.RepulsionPushesApart | src/services/graph_service.rs:838-869 | with a non-negative repulsion constant, the repulsion on node j points away from node i |
| ForceDirection.SpringPullsTogether | src/services/graph_service.rs:883-909 | with a non-negative spring strength, the spring force on the source points towards the target |
| Physics.FirstFailure | src/services/graph_service.rs:742-774 | an accelerator step fails iff one of its four stages fails, and reports the first stage that did |
| Physics.CalculateLayout | src/services/graph_service.rs:723-811 | on a failing stage: that error, with graph and map untouched; otherwise every node with a read-back record takes that record's data, the rest keep theirs, and the map mirrors the updated prefix |
| Physics.WriteBack | src/services/graph_service.rs:778-787 | node i takes record i when there is one, keeps its data otherwise, and changes nothing else |
| Physics.ApplyRecords | src/services/graph_service.rs:778-794 | the nodes are written back and the map mirrors the nodes that had a record |
| Physics.WriteBackMirrored | src/services/graph_service.rs:788-793 | the map keeps its keys; an entry takes the record of its node when one exists, and otherwise keeps its data |
| Physics.GpuWithRetries | src/services/graph_service.rs:682-702 | at most 3 attempts; every attempt before the last failed; success iff the last attempt succeeded; sleeps of 500·2^k ms between attempts, never after the last; on success the layout is that attempt's |
| Physics.CalculateLayoutWithRetry | src/services/graph_service.rs:673-720 | always succeeds; after three failed attempts (sleeps 500 and 1000 ms) it falls back to one CPU step, otherwise it applies the first successful attempt; the outcome satisfies `RetryFrom(0, …)` |
| Physics.RetryFromAttempts | src/services/graph_service.rs:682-720 | the attempt-by-attempt outcome (failures before the last attempt, then either the last attempt's layout or, after the third failure, the CPU step) is exactly `RetryFrom(k, …)`: the first successful attempt from k on is applied, and with none the CPU step is |
| Lifecycle.SimulationRegistry.constructor | src/services/graph_service.rs:37-42 | the mutex holds the empty string and no loop is running |
| Lifecycle.SimulationRegistry.New | src/services/graph_service.rs:150-172 | the new instance is appended with both shutdown flags clear and a live loop; the new id replaces the mutex's; the running flag ends up set |
| Lifecycle.StartWins | src/services/graph_service.rs:151-161 | whatever came before, the newest instance is the active one, the running flag is set, and earlier instances are unchanged |
| Lifecycle.SimulationRegistry.LoopCheck | src/services/graph_service.rs:189-204 | the loop exits iff a shutdown was requested; on exit it clears the running flag and reports completion only if the compare-and-swap finds the flag set |
| Lifecycle.SimulationRegistry.Shutdown | src/services/graph_service.rs:316-358 | refused iff this instance is not the active one; otherwise request then poll; a success means no loop running and completion reported, within 100 polls |
| Lifecycle.SimulationRegistry.Request | src/services/graph_service.rs:329-334 | the request flag is set and the completion flag cleared |
| Lifecycle.SimulationRegistry.AwaitStop | src/services/graph_service.rs:336-357 | the polling loop returns what `Poll` from attempt 0 returns under the schedule `sched`: during the sleep after poll k, the loops listed in `sched(k)` run their check |
| Lifecycle.SimulationRegistry.RunChecks | src/services/graph_service.rs:189-204 | the listed loops run their top-of-loop check in order; the new state is `RunLoops` of the old one |
| Lifecycle.RunLoops | src/services/graph_service.rs:189-204 | running loop checks keeps the instances' count and the active id |
| Lifecycle.RunLoopsKeeps | src/services/graph_service.rs:189-204 | an instance whose loop does not run, or is no longer alive, is untouched by a round of checks |
| Lifecycle.PollIdle | src/services/graph_service.rs:338-357 | when no loop runs during the remaining polls, a shutdown not yet stopped times out with the state unchanged |
| Lifecycle.ShutdownOfInactiveIsNoOp | src/services/graph_service.rs:322-327 | a shutdown from an instance that is not the active one changes nothing |
| Lifecycle.PollSound | src/services/graph_service.rs:338-357 | the polls end either timed out or stopped within the budget, with the loop not running and completion reported |
| Lifecycle.ShutdownWaitBounded | src/services/graph_service.rs:337 | 100 polls 50 ms apart: a successful wait is shorter than the 5000 ms timeout |
| Lifecycle.ShutdownCompletesWhileRunning | src/services/graph_service.rs:189-204 | while the running flag is set and no other loop has a pending request, a shutdown succeeds one poll after its loop first runs, whatever else the schedule runs |
| Lifecycle.RunLoopsQuiet | src/services/graph_service.rs:189-204 | when no other loop has a pending request, a round of checks amounts to `h`'s own check if it is scheduled, and to nothing otherwise |
| Lifecycle.PollCompletesWhileRunning | src/services/graph_service.rs:338-357 | from any poll, with the flag set and the others quiet, the poll after the one during which `h`'s loop first runs succeeds |
| Lifecycle.LateExitStrandsShutdown | src/services/graph_service.rs:154-161 | a concrete run where both loops run during every sleep and the exit guard as written strands a later shutdown until timeout, although its loop has exited; the corrected guard stops it after one poll (see Findings) |
| Lifecycle.StrandedStaysStranded | src/services/graph_service.rs:189-198 | once a loop has exited without reporting completion, the shutdown waiting for it times out under any schedule |
| Lifecycle.CorrectedShutdownCompletes | src/services/graph_service.rs:189-198 | with the corrected exit guard, the active instance's shutdown succeeds one poll after its loop first runs, whatever the running flag and whatever else the schedule runs |
| Lifecycle.RunLoopsCorrected | src/services/graph_service.rs:189-198 | with the corrected guard, once `h` is requested and active a round of checks keeps it so, and leaves it stopped when it ran or was stopped already |
| Lifecycle.PollCompletesCorrected | src/services/graph_service.rs:338-357 | with the corrected guard, from any poll, the poll after the one during which `h`'s loop first runs succeeds |
| Lifecycle.SimulationRegistry.GetDiagnostics | src/services/graph_service.rs:361-391 | reports the instance id, the mutex's id (or "Unable to acquire mutex" when busy), whether they match, the running flag, the request flag and the caller's accelerator presence; an 8-character instance id is never reported active while the mutex is busy; nothing changes |
| Service.GraphService.constructor | src/services/graph_service.rs:113-129 | an empty graph and node map, no cache, the clock at creation, caching on |
| Service.Elapsed | src/services/graph_service.rs:259 | the saturating difference of two clock readings |
| Service.GraphService.ShouldRateLimit | src/services/graph_service.rs:256-264 | limited iff less than 16 ms have passed since the last accepted update; when not limited the last-update time becomes now; nothing else changes |
| Service.Resolve | src/services/graph_service.rs:1079-1087 | an accepted update takes the client's position, velocity and ids, and keeps the stored mass, flags and metadata |
| Service.ApplyUpdates | src/services/graph_service.rs:1060-1103 | a batch of updates keeps the node map's key set |
| Service.UpdatesKeepAttributes | src/services/graph_service.rs:1077-1089 | after any batch, every node keeps its mass, flags and metadata |
| Service.GateNeverMovesBack | src/services/graph_service.rs:1069-1074 | the last-update time never decreases, and it only ever takes one of the batch's clock readings |
| Service.BurstAppliesOnlyFirst | src/services/graph_service.rs:1069-1089 | in a burst at one instant only the first update passes the gate |
| Service.SyncFromMap | src/services/graph_service.rs:1093-1097 | each graph node takes the data of its map entry when there is one, and keeps its own otherwise |
| Service.SyncAgrees | src/services/graph_service.rs:1093-1097 | after syncing, the graph agrees with the map on every shared id and nothing but data changed |
| Service.GraphService.UpdateNodePositions | src/services/graph_service.rs:1060-1103 | the map and gate are the batch result, the graph syncs from the map, and the broadcast is the id and data of every graph node |
| Service.GraphService.SyncNodes | src/services/graph_service.rs:1093-1097 | the graph nodes take their map entries' data; nothing else changes |
| Service.Positions | src/services/graph_service.rs:1001-1045 | a cache entry younger than 50 ms is returned as it is; otherwise the current nodes are returned and cached with the current time (when caching is on) |
| Service.CacheStalenessBounded | src/services/graph_service.rs:1004-1034 | nodes read within 50 ms of a refresh are the cached ones; from 50 ms on the current nodes are read and cached |
| Service.CacheDisabledReadsThrough | src/services/graph_service.rs:1005-1034 | with caching off, the current nodes are returned and the cache is left as it is |
| Service.GraphService.GetNodePositions | src/services/graph_service.rs:1001-1045 | returns the nodes and sets the cache as `Positions` says; nothing else changes |
| Service.GraphService.ClearPositionCache | src/services/graph_service.rs:996-999 | the cache is emptied; nothing else changes |
| Service.TotalPages | src/services/graph_service.rs:990 | the page count is the ceiling of nodes / page size: enough pages for every node, and no empty last page |
| Service.Touching | src/services/graph_service.rs:974-982 | the page's edges are exactly the edges with an endpoint on the page |
| Service.TouchingAppend | src/services/graph_service.rs:974-982 | the edge filter distributes over concatenation, so the kept edges stay in the graph's order with their duplicates |
| Service.Paginate | src/services/graph_service.rs:934-993 | an error iff the page starts past the end; otherwise the nodes are the page's slice, at most a page size, with exactly the edges touching them, the totals and the page number |
| Service.PageHoldsIndex | src/services/graph_service.rs:946-954 | every node appears on page `i / size`, at position `i % size` |
| Service.GraphService.GetPaginatedGraphData | src/services/graph_service.rs:934-993 | the result is `Paginate` of the current graph; nothing changes |
| Service.PagesWithinCount | src/services/graph_service.rs:946-990 | a page is non-empty iff its number is below the total page count |
| Service.GraphService.PhysicsTick | src/services/graph_service.rs:200-248 | with physics on, one layout step (the CPU step when there is no accelerator; with one, the retried layout `RetryFrom(0, …)`: the first successful attempt, or the CPU step after three failures) and a broadcast of every node's id and data; with physics off, nothing moves and nothing is sent; the position cache is cleared either way |
| Service.GraphService.BroadcastTick | src/services/graph_service.rs:1276-1281 | reads positions through the cache and sends them only when there are any |
| Service.InitGpu | src/services/graph_service.rs:1126-1157 | an existing accelerator is kept; otherwise one is kept iff it is created and its test computation passes; success iff an accelerator is there afterwards |
| Service.InitGpuIdempotent | src/services/graph_service.rs:1130-1134 | a failed initialisation leaves none, and initialising again after success changes nothing |
| Service.GraphService.InitializeGpu | src/services/graph_service.rs:1126-1157 | the accelerator and the result are those of `InitGpu`; nothing else changes |
| Service.UpdatePositionsOf | src/services/graph_service.rs:1105-1124 | with an accelerator, its force computation's outcome; without one, initialisation first, and its failure is returned |
| Service.NotInitializedUnreachable | src/services/graph_service.rs:1113-1121 | "not initialised" is never returned unless the force computation itself returns it |
| Service.GraphService.UpdatePositions | src/services/graph_service.rs:1105-1124 | the accelerator and result are those of `UpdatePositionsOf`; nothing else changes |
| PyText.Strip | spatialKnowledgeGraph/models/node.py:68 | `strip()` gives a slice of the text, with only whitespace cut from either end, and leaves no whitespace at either end |
| PyText.StripEmptyIffBlank | spatialKnowledgeGraphJOH/loaderAndClusters/markdown_parser.py:84 | a text strips to empty iff it is all whitespace |
| PyText.IndexOf | spatialKnowledgeGraph/models/node.py:69 | the first occurrence at or after the start, or none at all |
| PyText.AfterFirst | spatialKnowledgeGraph/models/node.py:69 | the text is its first field, the separator, then what follows |
| PyText.SecondField | spatialKnowledgeGraph/models/node.py:69 | `split("::")[1]`: a prefix of what follows the first separator; all of it iff there is no second separator, otherwise followed by that separator; no occurrence of the separator starts inside it, so for `"::"` the field of `":::::"` is `""` |
| PyText.BeforeFirst | spatialKnowledgeGraphJOH/loaderAndClusters/markdown_parser.py:90 | `split('.')[0]`: a prefix, the whole text iff there is no separator, otherwise followed by the separator; no occurrence of the separator starts inside it |
| PyText.BeforeFirstUnique | spatialKnowledgeGraphJOH/loaderAndClusters/markdown_parser.py:90 | the first field is the only prefix that is the whole text or is followed by the separator and inside which no occurrence starts, so `split(sep)[0]` is fully determined for any separator |
| PyText.SplitLines | spatialKnowledgeGraph/models/node.py:67 | no line holds a line break, and a text has no lines iff it is empty |
| PyText.SplitLinesCons | spatialKnowledgeGraph/models/node.py:67 | a break-free line ended by `\n` is the first line, and the rest of the text gives the other lines |
| PyText.SplitTerminated | spatialKnowledgeGraph/models/node.py:67 | `splitlines` gives back any break-free lines written out each ended by `\n` |
| PyText.ReplaceAll | spatialKnowledgeGraph/pythonCodeJOH/nodeAndEdgeExtractor.py:62 | `replace` keeps the length when the replacement is as long as the pattern, and changes nothing when the pattern replaces itself |
| PyText.ReplaceAbsent | spatialKnowledgeGraph/pythonCodeJOH/nodeAndEdgeExtractor.py:62 | a text without the pattern is left as it is |
| PyText.ReplaceAtFirst | spatialKnowledgeGraph/pythonCodeJOH/nodeAndEdgeExtractor.py:62 | the text before the first occurrence is kept, the occurrence becomes the replacement, and the scan resumes after it |
| PyText.ReplaceKeeps | spatialKnowledgeGraph/pythonCodeJOH/nodeAndEdgeExtractor.py:62 | a stretch where no occurrence starts is copied unchanged |
| PyText.Links | spatialKnowledgeGraphJOH/loaderAndClusters/markdown_parser.py:92 | every extracted link target is non-empty and free of `]` |
| PyText.LinksOfRendered | spatialKnowledgeGraphJOH/loaderAndClusters/markdown_parser.py:92 | extracting the links of a text of rendered `[[t]]` links gives back exactly the targets, in order |
| LinkGraph.NodeOf | spatialKnowledgeGraphJOH/loaderAndClusters/markdown_parser.py:88-102 | the node's id is the file name, its name the text before the first dot, its links those of the content; it starts at (0,0,0) at rest with weight 1.0, unpinned |
| LinkGraph.LinkEdges | spatialKnowledgeGraphJOH/loaderAndClusters/markdown_parser.py:107-112 | at most one edge per link, each from the new node with weight 1.0, active, of type `link` |
| LinkGraph.LinkEdgesTargets | spatialKnowledgeGraphJOH/loaderAndClusters/markdown_parser.py:108-110 | every edge ends at the node registered under one of the links |
| LinkGraph.Step | spatialKnowledgeGraphJOH/loaderAndClusters/markdown_parser.py:80-112 | an unreadable or blank file changes nothing; any other appends its node, binds its name to it, keeps the earlier edges and adds only edges from the new node |
| LinkGraph.Parse | spatialKnowledgeGraphJOH/loaderAndClusters/markdown_parser.py:66-117 | at most one node per file |
| LinkGraph.NodesFromFiles | spatialKnowledgeGraphJOH/loaderAndClusters/markdown_parser.py:80-102 | every parsed node has the name and text of one of the files |
| LinkGraph.ParseMarkdownFiles | spatialKnowledgeGraphJOH/loaderAndClusters/markdown_parser.py:66-117 | the loop's nodes and edges are those of `Parse` over the files in listing order |
| LinkGraph.AddLinkEdges | spatialKnowledgeGraphJOH/loaderAndClusters/markdown_parser.py:107-112 | the inner loop appends exactly the link edges of the new node |
| LinkGraph.StepWellFormed | spatialKnowledgeGraphJOH/loaderAndClusters/markdown_parser.py:80-112 | one file keeps the parse well formed |
| LinkGraph.ParseWellFormed | spatialKnowledgeGraphJOH/loaderAndClusters/markdown_parser.py:103-112 | the name index points at the latest node of each name; every edge goes from a node to an earlier or the same node named among its links, with weight 1.0, active, of type `link` |
| LinkGraph.BlankFileSkipped | spatialKnowledgeGraphJOH/loaderAndClusters/markdown_parser.py:84-85 | a whitespace-only file adds neither node nor edge |
| LinkGraph.FileAppendsNode | spatialKnowledgeGraphJOH/loaderAndClusters/create_json_files.py:80-81 | a non-blank file appends its node, re-points its name to it, and only adds edges |
| LinkGraph.LinkEdgesOfKnown | spatialKnowledgeGraphJOH/loaderAndClusters/markdown_parser.py:108-110 | a link whose target is already known yields the edge to it |
| LinkGraph.LinkEdgesAllKnown | spatialKnowledgeGraphJOH/loaderAndClusters/markdown_parser.py:107-110 | when every target is known, one edge per link, in link order |
| LinkGraph.LinkEdgesUnknown | spatialKnowledgeGraphJOH/loaderAndClusters/markdown_parser.py:111-112 | links to unknown targets yield no edge |
| LinkGraph.SelfLinkSelfEdge | spatialKnowledgeGraphJOH/loaderAndClusters/markdown_parser.py:104-110 | a page linking to its own name gets an edge to itself, since it is registered before its links are read |
| LinkGraph.NodesAreOfFiles | spatialKnowledgeGraphJOH/loaderAndClusters/markdown_parser.py:88-102 | every parsed node is named by its file name before the first dot, at rest, with weight 1.0, and with the links of its own content |
| LinkGraph.StrList | spatialKnowledgeGraphJOH/loaderAndClusters/markdown_parser.py:43 | a list of strings renders as a JSON list of those strings, in order |
| LinkGraph.NodeToDict | spatialKnowledgeGraphJOH/loaderAndClusters/markdown_parser.py:33-45 | a node record has exactly the nine keys id, name, position, weight, velocity, pinned, block_content, link_types and file_size |
| LinkGraph.NodeRecordRoundTrip | spatialKnowledgeGraphJOH/loaderAndClusters/markdown_parser.py:33-45 | a node record holds the whole node: reading it back gives the node |
| LinkGraph.EdgeToDict | spatialKnowledgeGraphJOH/loaderAndClusters/markdown_parser.py:56-64 | an edge record has exactly the keys start_node, end_node, weight, is_active and link_type |
| LinkGraph.EdgeRecordFields | spatialKnowledgeGraphJOH/loaderAndClusters/markdown_parser.py:56-64 | an edge record names its endpoints by their node ids and copies weight, activity and type |
| LinkGraph.ParsedEdgeRecords | spatialKnowledgeGraphJOH/loaderAndClusters/create_json_files.py:43-50 | every parsed edge's record names two parsed nodes by file name; the end's name before the first dot is a link of the start; weight 1.0, active, `link` |
| LogseqExtractor.FrontMatter | spatialKnowledgeGraph/pythonCodeJOH/nodeAndEdgeExtractor.py:58 | front matter exists iff the text starts with `---` and has another `---` from position 3; the block is the shortest such `---…---` prefix |
| LogseqExtractor.ParseMarkdownFile | spatialKnowledgeGraph/pythonCodeJOH/nodeAndEdgeExtractor.py:53-72 | without front matter: empty metadata and the links of the whole text; with it: a YAML error fails, otherwise every copy of the block is removed and the links are those of what remains |
| LogseqExtractor.FrontMatterLinksIgnored | spatialKnowledgeGraph/pythonCodeJOH/nodeAndEdgeExtractor.py:59-67 | links inside the front matter are not extracted: the body and links are those of the text after the block |
| LogseqExtractor.FileNode | spatialKnowledgeGraph/pythonCodeJOH/nodeAndEdgeExtractor.py:89-106 | fails iff the file cannot be read, its YAML fails, or its metadata is not a mapping; otherwise id = metadata `id` or the file name, name = `title` or the file name without `.md`, and one `link` edge per link in order |
| LogseqExtractor.ParseFolder | spatialKnowledgeGraph/pythonCodeJOH/nodeAndEdgeExtractor.py:87-106 | a success starts from a success and keeps every node id it had; each node is stored under its own id or is an untouched one of the start |
| LogseqExtractor.CreateGraph | spatialKnowledgeGraph/pythonCodeJOH/nodeAndEdgeExtractor.py:74-117 | every node is stored under its own id; with neither folder the graph is empty |
| LogseqExtractor.ParseFolderAppend | spatialKnowledgeGraph/pythonCodeJOH/nodeAndEdgeExtractor.py:87-106 | parsing a listing in two parts is parsing the whole listing |
| LogseqExtractor.JournalsBeforePages | spatialKnowledgeGraph/pythonCodeJOH/nodeAndEdgeExtractor.py:108-115 | the graph is the parse of the journals listing followed by the pages listing |
| LogseqExtractor.ErrorIsFinal | spatialKnowledgeGraph/pythonCodeJOH/nodeAndEdgeExtractor.py:70-72 | once a file fails, the whole extraction fails with that error |
| LogseqExtractor.NonMarkdownIgnored | spatialKnowledgeGraph/pythonCodeJOH/nodeAndEdgeExtractor.py:90 | a file not ending in `.md` changes nothing |
| LogseqExtractor.LaterFileReplacesNode | spatialKnowledgeGraph/pythonCodeJOH/nodeAndEdgeExtractor.py:97-106 | a later file with the same id replaces the node, while the edges of both stay |
| LogseqExtractor.EdgesOnlyGrow | spatialKnowledgeGraph/pythonCodeJOH/nodeAndEdgeExtractor.py:102-106 | the edge list only grows, and every added edge is of type `link` |
| LogseqExtractor.ParseFolderLoop | spatialKnowledgeGraph/pythonCodeJOH/nodeAndEdgeExtractor.py:87-106 | the loop, stopping at the first error, gives `ParseFolder` |
| LogseqExtractor.AppendEdges | spatialKnowledgeGraph/pythonCodeJOH/nodeAndEdgeExtractor.py:102-106 | the inner loop appends the node's edges in order |
| LogseqExtractor.CreateGraphFromLogseq | spatialKnowledgeGraph/pythonCodeJOH/nodeAndEdgeExtractor.py:74-117 | the result is `CreateGraph`: journals first if present, then pages if present |
| PageNodes.PublicLineHasSeparator | spatialKnowledgeGraph/models/node.py:68-69 | a `public::` line always has a `::`, so `split("::")[1]` exists |
| PageNodes.VerdictHasWitness | spatialKnowledgeGraph/models/node.py:67-71 | a positive verdict comes from a `public::` line whose value reads "true" |
| PageNodes.PublicPageDeclared | spatialKnowledgeGraph/models/node.py:57-71 | a public page is not empty and has a `public::` line whose value reads "true" |
| PageNodes.PublicVerdictOfText | spatialKnowledgeGraph/models/node.py:67-71 | on the page text: a first `\n`-ended line decides when it is a `public::` line, and otherwise the rest of the text decides |
| PageNodes.FirstPublicLineDecides | spatialKnowledgeGraph/models/node.py:67-71 | the first `public::` line alone decides, by its value read as "true" in any case |
| PageNodes.NoPublicLineNotPublic | spatialKnowledgeGraph/models/node.py:71 | a page without a `public::` line is not public |
| PageNodes.IndentedPublicLine | spatialKnowledgeGraph/models/node.py:68-70 | an indented `public:: v` line counts, and its verdict is `v` stripped, read as "true" |
| PageNodes.PageNode.constructor | spatialKnowledgeGraph/models/node.py:28-48 | the given id, name, position and weight; zero velocity; unpinned, unvisited, unclustered, no text and not public |
| PageNodes.PageNode.LoadDataFromLogseq | spatialKnowledgeGraph/models/node.py:73-75 | the page text is stored and the public flag is read from exactly that text; nothing else changes |
| SpringWorld.World.constructor | spatialKnowledgeGraph/exampleSpringCode/world.py:25-31 | no nodes, edges or clusters, and both energies zero |
| SpringWorld.World.LoadLogseqData | spatialKnowledgeGraph/exampleSpringCode/world.py:33-58 | the public `.md` pages are stored under 1, 2, … in listing order, named without `.md` and holding their text; other entries are untouched; no edges are added |
| SpringWorld.World.LoadPage | spatialKnowledgeGraph/exampleSpringCode/world.py:49-50 | a new node with the counter's id and the page's name and text, public iff the text says so |
| SpringWorld.PublicPages | spatialKnowledgeGraph/exampleSpringCode/world.py:43-55 | every stored page is public, and there are no more pages than entries |
| SpringWorld.PublicPagesAppend | spatialKnowledgeGraph/exampleSpringCode/world.py:43-55 | loading a listing in two parts stores the first part's pages, then the second's |
| SpringWorld.SkippedConsumeNoId | spatialKnowledgeGraph/exampleSpringCode/world.py:53-55 | an entry that is not stored consumes no id, so later pages keep theirs |
| ArticleWeight.CalculateWeight | scrapeDateScript/scrape_dates.py:46-66 | a missing, empty or unparseable date weighs 0.5; otherwise by age in days: up to 30 (future included) 1.0, up to 365 0.8, up to 1095 0.6, older 0.4 |
| ArticleWeight.OlderWeighsNoMore | scrapeDateScript/scrape_dates.py:56-63 | of two parseable dates, the older never weighs more |
| ArticleWeight.WeightRange | scrapeDateScript/scrape_dates.py:48-66 | every weight is one of 1.0, 0.8, 0.6, 0.4 or 0.5 |

## Left out

- Floating point: `f32` arithmetic is modelled on reals; rounding, NaN and infinities are not modelled. The square root is a parameter (`SquareRoot` in `physics.dfy`), known only to be positive on positive arguments.
- Physics.CalculateLayoutCpu: the mass conversion `mass as f32 / 255.0 * 10.0 * mass_scale` is kept, but in real arithmetic.
- GraphBuilder.InitializePositions: the Fibonacci-sphere coordinates and the random radius are the caller's `place` function, not computed (trigonometry and randomness).
- The node constructor `Node::new_with_id`, `set_file_size` and the mass formula are not part of this model. The mass is the parameter `massOf`, and node size is kept only as metadata text.
- GraphBuilder.MakeNode: the defaults of `Node::new_with_id` are assumed, not derived: flags 0, mass 0, the metadata id as label, at the origin and at rest, empty metadata and file size 0 (`NewNode`).
- The metadata store's file wait (`wait_for_metadata_file`), `test_gpu_at_startup`, `diagnose_gpu_status` and `test_metadata_transfer` are left out. They are logging and start-up probes of the accelerator and the file system.
- Concurrency: tasks, locks and sleeps become sequential steps.
  - The shutdown wait's interleaving is the schedule `sched`: the loops that run their check during each sleep, in order.
  - A sleep becomes the delay it would take (`delays`), not a wait.
- The broadcast loop and the simulation loop are modelled one iteration at a time (`BroadcastTick`, `PhysicsTick`), not as endless tasks.
- The binary encoder and the client-manager actor are not part of this model. A broadcast is the sequence of (id, data) pairs it would encode.
- The accelerator itself (`GPUCompute`) is not part of this model. Its calls are outcomes given as parameters.
- Service.Paginate: a page that starts past the last node makes the source's `end - start` underflow. A debug build panics there. A release build wraps, and `skip`/`take` (graph_service.rs:949-954) give an empty page with `Ok`. The model returns an error for it.
- Service.TotalPages: the source computes the page count in `f32` and rounds up. The model uses exact integer ceiling division, which agrees whenever the `f32` values are exact.
- Service.Elapsed: `Instant::duration_since` saturates at zero; the model does the same with natural numbers.
- Reading files: a directory listing is given as a sequence in the order `glob`/`listdir` return it. A read failure is `None` where the loader catches it. Decoding errors are not modelled apart from that.
- SpringWorld.World.LoadLogseqData and PageNodes.PageNode.LoadDataFromLogseq take each page's text directly. A failing read (world.py:50, node.py:73-74) raises and aborts the load, keeping the pages stored so far; that path is not modelled.
- LogseqExtractor.ParseMarkdownFile: YAML parsing is a parameter returning a string map, a non-mapping value, or an error. Metadata values other than strings are not modelled.
- Logging (`print`, `info!`, `warn!`) and the JSON writers (`save_to_json`, `json.dump`) are left out. The JSON values a record holds are modelled by `NodeToDict` and `EdgeToDict`.
- LinkGraph.NodeToDict: position and velocity are modelled as integer triples (the Python defaults are `(0, 0, 0)`).
- The Blender object of a page node, the rest of the world simulation (`run_simulation`, clustering and energies beyond their initial values) and the scraping and speech-handling code are not part of this model.
- ArticleWeight.CalculateWeight: `strptime` and `datetime.now()` are the parameters `parse` and `today`.

## Findings

| source | as written | input that shows it | evidently intended | confidence | as-written member | corrected member |
|---|---|---|---|---|---|---|
| src/services/graph_service.rs:189-198 | the loop's exit guard reports `shutdown_complete` only when its compare-and-swap clears the running flag | instance A's shutdown times out before its loop runs; instance B starts; A's loop then exits and clears the flag; B's shutdown makes B's loop exit, but its compare-and-swap fails, completion is never reported, and the shutdown waits the full 5 s although the loop has stopped | an exiting loop always reports its own completion, and clears the running flag only if it is the active instance's loop | not executed | Lifecycle.LateExitStrandsShutdown | Lifecycle.CorrectedShutdownCompletes |
