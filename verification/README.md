# SAP-Automate: verified models of its algorithmic cores

SAP-Automate is a set of Rust crates that connect language-model agents to SAP systems over the Model Context
Protocol. Between its I/O layers lie small protocols and algorithms on which everything else leans. This project
models them in Dafny and proves what they promise, on all inputs, all runs or all reachable states.

`dafny verify dfyconfig.toml` checks the whole project.

## What is proved

* **Duplex protocol** (`Duplex`, `DuplexProgress`, `DuplexRuns`, `Counting`). Client, stdio server and elicitation
  as one step system: id counters, waiter maps, spawned tasks, and the whole pipeline of bounded queues, writer and
  reader hands and wires between them. In every interleaving, and whatever the two id bases are, each waiter is
  resolved at most once, with the one reply built for exactly the request it sent, in both directions and with tools
  that call back mid-call. While the client's reader lives there is no deadlock, and a run takes at most fourteen
  steps for each call, notification or shutdown it starts, after which nothing is pending. That condition is exact:
  the reader's end releases every waiter there is and strands exactly the calls registered behind it. Messages
  arrive in the order sent, no queue outgrows its bound, and a tool waits until its callback has been answered.
* **Graph analytics** (`Sums`, `Rows`, `GraphStore`, `StoredRows`, `PageRank`, `PageRankLoops`, `ScoreSpread`,
  `Hops`, `MultiHop`, `Partition`, `Louvain`). The power-iteration step keeps the total mass of distinct seeds and,
  for any seeds, shrinks the L1 distance by the factor 1 - alpha. The loop's delta obeys the geometric bound, which
  a two-node graph meets with equality for every alpha, so the exact parameters are known for which every run ends
  by convergence; the defaults are not among them. After k iterations exactly the nodes within k hops of a seed have
  a score. Breadth-first search returns exact shortest hop distances, and the hits of the whole multi-hop search are
  the best nodes within the budget, each with its true distance. The Louvain gain is the exact modularity difference
  for a node that leaves a one-member community; in general a move raises modularity if and only if its gain exceeds
  the gain of staying, and the first pass over a concrete graph lowers it.
* **Document trees** (`Trimming`, `DocDialects`, `DocSections`, `DocTree`, `DocPaths`). The headings are exactly the
  lines written as such, with their depth and title. The builder's raw pointers are addresses in a forest. The stack
  is always the rightmost spine, so no pointer held is moved by a push; the preorder is the heading list, each
  parent is the nearest earlier heading of smaller depth, dotted paths find their own node, and section ranges tile
  the body from the first heading on.
* **SOAP** (`SoapText`, `Soap`, `SoapRead`, `SoapRequest`, `SoapMirror`). For every validated call, the whole
  request text reads back as the normal form of its parameters exactly when the function name does not end in a
  slash, no rendered key has a slash at an end, and the nesting is within the cap; otherwise it is refused. The
  rendered text tokenizes into the events of the object's own structure, whatever its keys and strings hold, and
  what is read back mirrors the parameters at every level.
* **Write gate** (`WriteGate`). For every client: which calls are sent, that a commit is sent exactly when every row
  of the reply, told by its own entries, is of type S, W or I and there is one, what `committed` and `rolled_back`
  mean.
* **Stateful guards** (`Breaker`, `MetadataCache`, `RateLimiter`). Each object's fields are tied to the history of
  its run, and what callers observe is characterised by that history alone: when a call starts, when a lookup is
  answered without the client, when a fetch is granted.
* **Text and ranking** (`Chunker`, `Ranking`, `Fusion`, `Base64`). Gap-free windows that end behind a sentence where
  one is in reach, the exact targets for them, consensus-first fusion, and Base64 with its inverse.
* `Wrappers` holds what several modules share.

Where code and comments part, the model follows the code, and what holds of the code is proved:

* crates/sap-automate-kb/src/doc_tree.rs:207-211 says that the vector of roots is not pushed to after the first
  iteration. It is, whenever a heading has no ancestor; the push is safe because the stack is then empty.
* crates/sap-automate-kb/src/doc_tree.rs:302-304 and line 371 want headings at the start of a line; white space may come
  before them.
* crates/sap-automate-rfc/src/bapiret2.rs:101-102 speaks of MESSAGE or NUMBER; only MESSAGE is looked at.
* crates/sap-automate-graph/src/ppr.rs:81-82 promises equal shares of the mass; duplicate seeds lose mass, and the
  scores returned hold the whole mass exactly when the seeds found are distinct.
* crates/sap-automate-graph/src/ppr.rs:26-28 speaks of a hop radius; with `max_hops` equal to `u32::MAX` unreachable
  nodes pass the filter too.
* crates/sap-automate-graph/src/community.rs:3-5 says that a node moves if that increases modularity; the gain is
  compared with zero, not with the gain of staying.
* crates/sap-automate-rfc/src/retry.rs:102-104 says that after the open period the next call can probe; every call
  that enters before the probe settles is let through.
* crates/sap-automate-rfc/src/soap.rs:380-381 allows `/` in names; a rendered key with a slash at either end, or a
  function name with one at its end, makes a request that the reader refuses.
* crates/sap-automate-ingest/src/chunker.rs:80 takes any target; at 200 a byte can be lost, and below 200 the slice at
  line 100 can panic.
* crates/sap-automate-rfc/src/retry.rs:129 advertises the wait in whole milliseconds, cut down; a caller that waits just
  that long can be refused again.
* crates/sap-automate-graph/src/community.rs:96 panics when an edge has just one registered end.

## Modelling choices

* `f32` is `real`, integers are unbounded, clocks are readings passed as parameters.
* Hash maps whose iteration order matters are drained in an arbitrary order, or listed without duplicates.
* The wrapped clients are arbitrary functions: of everything asked so far (`WriteGate`), or fresh ones at every call
  (`MetadataCache`).
* Objects guarded by a mutex are classes whose methods are the critical sections. Runs over interleavings are
  histories of such sections, with the class methods proved equal to the functions the histories are made of.
* The queues and tasks of the duplex protocol are shared by several tasks, so they are modelled as steps of one
  state machine and not as one object with methods.

## Model

| member | source | states |
|---|---|---|
| Duplex.FlatShift | crates/mcp-server/src/server.rs:306-326 | moving a message from one buffer to the next keeps the order of all messages on their way |
| Duplex.ResponseFindsWaiter | crates/mcp-client/src/lib.rs:101-112 | a response at the end of the lane, with the reader alive, always has its waiter registered |
| Duplex.StepKeepsValid | crates/mcp-client/src/lib.rs:98-145 | every step of every task on both sides keeps the invariant: one carrier per unanswered call, waiters are the registered unanswered calls, every message in flight is authentic |
| Duplex.InitValid | crates/mcp-server/src/elicit.rs:60-71 | the invariant holds at the start for any two id bases, overlapping or not |
| Duplex.RunKeepsValid | crates/mcp-server/src/server.rs:329-351 | the invariant holds after every run |
| Duplex.DeliveredOnceWithOwnReply | crates/mcp-client/src/lib.rs:351-373 | in every run each waiter is resolved at most once, with the only reply a task of the other peer built for exactly the request it sent; elicitations are answered by the delegate or one of its two errors |
| DuplexProgress.LaneMoves | crates/mcp-server/src/server.rs:299-326 | a lane of bounded buffers that holds any message has an enabled step |
| DuplexProgress.NoDeadlock | crates/mcp-client/src/lib.rs:92-145 | while any call of either side is unanswered and the client's reader lives, a step that starts no new work is enabled |
| DuplexProgress.PendingIsUnanswered | crates/mcp-server/src/elicit.rs:94-99 | every registered waiter stands for an unanswered call with exactly one carrier |
| DuplexProgress.StepUsesWork | crates/mcp-server/src/server.rs:335-341 | every step that starts no new work reduces the work owed |
| DuplexProgress.RunUsesWork | crates/mcp-client/src/lib.rs:342-373 | a run has at most fourteen steps for each call, notification or shutdown started in it, plus the work owed before |
| DuplexProgress.EveryCallIsAnswered | crates/mcp-server/src/elicit.rs:89-145 | from the start, runs are so bounded, and where only new work could start, no waiter and no unanswered call is left on either side |
| DuplexProgress.DeadReaderStrands | crates/mcp-client/src/lib.rs:133-134 | after the reader has ended a registered call is never resolved, in any continuation |
| DuplexProgress.StrandedCallIsReachable | crates/mcp-client/src/lib.rs:354-364 | such a call exists: shut down, then call |
| DuplexRuns.StrandedExactly | crates/mcp-client/src/lib.rs:123-135 | in every run the end of the client's reader releases every waiter there is, for good, and the calls stranded are exactly those registered behind it |
| DuplexRuns.CallIsKeptAsAsked | crates/mcp-client/src/lib.rs:351-359 | the request on record for a call is, for the rest of the run, the method and parameters it was asked with, under the next id |
| DuplexRuns.IdsCountUp | crates/mcp-client/src/lib.rs:351-352 | in every run both sides hand out their ids one by one, without a gap, from their base |
| DuplexRuns.QueuesStayBounded | crates/mcp-server/src/server.rs:299-300 | in every run the queues of both sides hold at most 64 messages, and each reader and writer at most one |
| DuplexRuns.ArrivesInOrder | crates/mcp-client/src/lib.rs:137-145 | in every run, what one side has read and what is still on its way are together exactly what the other side sent, in that order |
| DuplexRuns.ToolsAwaitTheirAnswer | crates/mcp-server/src/elicit.rs:89-126 | while an elicitation is unanswered, the tool that asked it is still running and waits for it |
| GraphStore.InMemoryGraph.AddEntity | crates/sap-automate-graph/src/store.rs:53-55 | adds one node and keeps the edge tables |
| GraphStore.InMemoryGraph.AddEdge | crates/sap-automate-graph/src/store.rs:57-61 | appends the edge and keeps both adjacency tables equal to the edge list read by either end |
| GraphStore.InMemoryGraph.UndirectedNeighbours | crates/sap-automate-graph/src/store.rs:78-83 | distinct neighbours whose weights are the adjacency matrix, self loops counted twice, with the degree as their sum |
| GraphStore.AdjacencySymmetric | crates/sap-automate-graph/src/store.rs:77-83 | the adjacency matrix is symmetric |
| GraphStore.NeighboursAreJoined | crates/sap-automate-graph/src/store.rs:67-83 | the neighbours of a node are exactly the other ends of its edges |
| GraphStore.DegreeIsRowSum | crates/sap-automate-graph/src/community.rs:55-63 | with all ends registered, the degree of a node is the sum of its matrix row |
| GraphStore.DegreesSumToTwiceWeight | crates/sap-automate-graph/src/community.rs:64-64 | with all ends registered, the degrees add up to twice the total edge weight |
| PageRank.ShareIsStochastic | crates/sap-automate-graph/src/ppr.rs:100-117 | the shares a node hands on are non-negative and sum to one, dangling nodes included |
| PageRank.WalkKeepsTotal | crates/sap-automate-graph/src/ppr.rs:111-116 | with a restart distribution, following links and returning dangling mass keeps the total of any vector |
| PageRank.WalkAddsNoMass | crates/sap-automate-graph/src/ppr.rs:84-117 | with the restart vector of any seeds, repeated ones included, it never adds mass |
| PageRank.StepKeepsDistribution | crates/sap-automate-graph/src/ppr.rs:99-117 | one iteration maps distributions to distributions |
| PageRank.StepContracts | crates/sap-automate-graph/src/ppr.rs:99-117 | for the restart vector of any seeds one iteration shrinks the L1 distance of any two vectors by at least the factor 1 - alpha |
| PageRank.IterateIsDistribution | crates/sap-automate-graph/src/ppr.rs:96-122 | every iterate is non-negative with total exactly one |
| PageRank.FirstDelta | crates/sap-automate-graph/src/ppr.rs:119-121 | for the restart vector of any seeds the first delta is at most 2(1 - alpha) |
| PageRank.IterateIsDistributionExactly | crates/sap-automate-graph/src/ppr.rs:84-122 | every iterate is a distribution exactly when the restart vector is one |
| PageRank.DeltaBound | crates/sap-automate-graph/src/ppr.rs:97-122 | for the restart vector of any seeds delta at iteration t is at most 2(1 - alpha)^(t + 1) |
| PageRankLoops.OutWeights | crates/sap-automate-graph/src/ppr.rs:71-79 | the accumulated weights are the row sums |
| PageRankLoops.SpreadLinks | crates/sap-automate-graph/src/ppr.rs:103-106 | the inner loop adds to each node its share of one node's outgoing mass |
| PageRankLoops.FollowLinks | crates/sap-automate-graph/src/ppr.rs:100-107 | the first loop computes the link part of the linear map |
| PageRankLoops.AddRestart | crates/sap-automate-graph/src/ppr.rs:108-117 | the second loop adds restart mass and hands dangling mass back |
| PageRankLoops.PowerStep | crates/sap-automate-graph/src/ppr.rs:99-117 | the two loops compute the linear map of the step |
| PageRankLoops.Personalise | crates/sap-automate-graph/src/ppr.rs:81-93 | the loop computes the restart vector of the seeds |
| PageRankLoops.RestartMass | crates/sap-automate-graph/src/ppr.rs:84-91 | the restart vector is non-negative, its mass is the number of distinct seeds over the number of seeds, hence one exactly when they are distinct |
| PageRankLoops.L1 | crates/sap-automate-graph/src/ppr.rs:118-119 | the computed delta is the L1 distance |
| PageRankLoops.Converge | crates/sap-automate-graph/src/ppr.rs:96-122 | the loop computes the reference run: steps until delta is below the tolerance or the limit is reached |
| PageRankLoops.RunStops | crates/sap-automate-graph/src/ppr.rs:96-122 | that run ends at the first iterate whose delta is below the tolerance, or at the limit, with that iterate |
| PageRankLoops.Rank | crates/sap-automate-graph/src/ppr.rs:81-122 | from seeds to scores: nothing when no seed is found, else the iterate reached from the restart vector |
| PageRankLoops.ScoresAreDistributionExactly | crates/sap-automate-graph/src/ppr.rs:84-122 | after any number of iterations the scores are a distribution exactly when no seed is named twice |
| PageRankLoops.RankConverges | crates/sap-automate-graph/src/ppr.rs:97-121 | for any seeds, the same of the scores returned, and the loop needs no more iterations than the geometric bound needs to fall below the tolerance |
| PageRankLoops.PairDelta | crates/sap-automate-graph/src/ppr.rs:97-121 | on two linked nodes the delta bound holds with equality, for every alpha and every iteration |
| PageRankLoops.DeltaBelowExactly | crates/sap-automate-graph/src/ppr.rs:119-121 | delta at iteration t is below the tolerance for every graph and all seeds exactly when 2(1 - alpha)^(t + 1) is |
| PageRankLoops.CapSufficesExactly | crates/sap-automate-graph/src/ppr.rs:97-121 | the loop ends by convergence for every graph and all seeds exactly when the limit n is positive and 2(1 - alpha)^n is below the tolerance |
| PageRankLoops.DefaultsNeedNotConverge | crates/sap-automate-graph/src/ppr.rs:32-36 | so the defaults do not make every run end by convergence |
| ScoreSpread.ScoresSpreadByHops | crates/sap-automate-graph/src/ppr.rs:99-117 | with 0 < alpha < 1 and links of positive weight, after k iterations exactly the nodes within k hops of a seed score above zero |
| ScoreSpread.ScoreTellsHops | crates/sap-automate-graph/src/ppr.rs:118-133 | so a surfaced hit scores above zero exactly if its hop count is at most the number of iterations |
| ScoreSpread.OutWeightsAreStationary | crates/sap-automate-graph/src/ppr.rs:100-107 | shares follow the weights: between symmetric links the vector of out-weights is left unchanged by the walk, from any restart vector |
| ScoreSpread.StoredIsSymmetric | crates/sap-automate-graph/src/ppr.rs:67-79 | the rows of every stored graph have symmetric weights |
| ScoreSpread.StoredIsWeighty | crates/sap-automate-graph/src/ppr.rs:67-79 | with positive edge weights their links have positive weight wherever they lead |
| Hops.WalkEndsInBall | crates/sap-automate-graph/src/ppr.rs:137-157 | a walk of at most d edges from a seed ends in the ball of radius d |
| Hops.BallHasWalk | crates/sap-automate-graph/src/ppr.rs:137-157 | every node of the ball of radius d is the end of such a walk |
| Hops.Mark | crates/sap-automate-graph/src/ppr.rs:139-141 | seeds get hop zero and form the frontier, all others the sentinel |
| Hops.Round | crates/sap-automate-graph/src/ppr.rs:144-152 | one round labels exactly the unlabelled neighbours of the frontier |
| Hops.BfsHops | crates/sap-automate-graph/src/ppr.rs:137-157 | hops are exact up to the limit and the sentinel beyond it |
| Hops.ExactIsShortest | crates/sap-automate-graph/src/ppr.rs:45-51 | an exact hop is the length of a shortest walk from any seed, and the sentinel means that no walk within the limit exists |
| Hops.RankHits | crates/sap-automate-graph/src/ppr.rs:127-133 | one hit per node, by descending score and, where scores are equal, ascending node, as a stable sort leaves them |
| Hops.Retain | crates/sap-automate-graph/src/ppr.rs:169-171 | keeps exactly the hits within the hop limit, each as often as before, in order |
| Hops.Surface | crates/sap-automate-graph/src/ppr.rs:159-174 | at most top_k hits within the limit, in rank order, none left out ranks before one kept, and none left out at all below top_k |
| Hops.SurfacedWithinBudget | crates/sap-automate-graph/src/ppr.rs:26-29 | with a limit below the sentinel every surfaced node has a walk within the limit from a seed |
| Hops.UnboundedBudgetKeepsUnreachable | crates/sap-automate-graph/src/ppr.rs:139-139 | with the limit equal to the sentinel, whatever the scores, the surfaced hits include a node no walk reaches |
| StoredRows.KnownPositions | crates/sap-automate-graph/src/ppr.rs:72-79 | the neighbours of a node as positions, unregistered ones passed over: the row carries their weights and leads exactly to the registered ones |
| StoredRows.ReadNet | crates/sap-automate-graph/src/ppr.rs:63-79 | the rows of all nodes hold the adjacency of the stored graph, lead exactly to the joined nodes, and are non-negative if the edges are |
| MultiHop.MultiHopSearch | crates/sap-automate-graph/src/ppr.rs:45-174 | rows and seeds to hits: no node twice, in rank order, each hit with the score of its node and its distance: a walk of exactly that many edges leads from a seed to it and no walk is shorter; a node within the limit is missing only behind top_k hits that rank before it; nothing when no seed is found |
| MultiHop.SearchGraph | crates/sap-automate-graph/src/ppr.rs:160-174 | the same from any stored graph with non-negative weights and any seed names, of which those that are no nodes are passed over |
| Partition.MoveChangesScore | crates/sap-automate-graph/src/community.rs:87-120 | for any symmetric matrix, moving one node changes the within-community sum by twice the difference of the two pulls |
| Partition.GainIsPull | crates/sap-automate-graph/src/community.rs:113-115 | the gain formula is the pull of the candidate community in the modularity matrix |
| Partition.MoveChangesModularity | crates/sap-automate-graph/src/community.rs:113-122 | a move changes modularity by the gain of the target minus the gain of staying |
| Partition.GainIsModularityDifference | crates/sap-automate-graph/src/community.rs:113-119 | for a node alone in its community the gain is exactly Q(node in candidate) - Q(node alone) |
| Partition.MoveRaisesModularity | crates/sap-automate-graph/src/community.rs:116-122 | a move raises modularity if and only if its gain exceeds the gain of staying, hence every move out of a one-member community does |
| Louvain.SumByCommunity | crates/sap-automate-graph/src/community.rs:93-98 | the table holds, for exactly the adjoining communities, the weight from the node into each |
| Louvain.MassByCommunity | crates/sap-automate-graph/src/community.rs:99-105 | the table holds the degree mass of each community without the node |
| Louvain.PickCommunity | crates/sap-automate-graph/src/community.rs:87-120 | the choice is the first, in ascending order, of the largest positive gain among adjoining communities, or the current one if no gain is positive |
| Louvain.Pass | crates/sap-automate-graph/src/community.rs:79-125 | each node in order takes its turn and goes exactly where the gains send it; a pass that reports no move has left the membership unchanged and settled |
| Louvain.PassIsDeterministic | crates/sap-automate-graph/src/community.rs:72-75 | the membership after a pass is determined by the one before |
| Louvain.TurnRaisesModularity | crates/sap-automate-graph/src/community.rs:81-125 | whenever a turn of a pass over a stored graph moves a node, modularity rises exactly when the gain exceeds the gain of staying, and always when the node was alone |
| Louvain.DetectCommunities | crates/sap-automate-graph/src/community.rs:66-126 | with total weight zero singletons; otherwise a run of at most eight such passes from singletons, and stopping before the eighth means no node has a positive gain left |
| Louvain.MoveGainIsGain | crates/sap-automate-graph/src/community.rs:110-115 | on the rows and degrees of a stored graph the gain computed from the two tables is the gain formula over the adjacency matrix |
| StoredRows.AllPositions | crates/sap-automate-graph/src/community.rs:93-97 | the neighbours of a node as positions carry their weights; the lookup panics exactly when one is not registered |
| Louvain.NodeRow | crates/sap-automate-graph/src/community.rs:83-97 | the neighbours of a node, read from the store and looked up as positions, weigh exactly the node's matrix row; the lookup panics exactly when a neighbour is not registered |
| Louvain.ReadGraph | crates/sap-automate-graph/src/community.rs:55-64 | rows and degrees of all nodes match the stored graph; some row panics exactly when an edge has just one registered end |
| Louvain.DetectInGraph | crates/sap-automate-graph/src/community.rs:45-131 | on any stored graph: a panic exactly when the total weight is not zero and an edge has just one registered end, singletons for total weight zero, else a run of passes over the graph's own rows and degrees |
| Louvain.PassCanLowerModularity | crates/sap-automate-graph/src/community.rs:91-120 | the first pass over a stored graph of three nodes: after two turns from singletons modularity has dropped by a quarter on a positive gain |
| DocDialects.AtxIsExact | crates/sap-automate-kb/src/doc_tree.rs:338-367 | a line is a heading of depth d and title t exactly when it is white space, d hashes (one to six), a blank, and a rest whose core, without closing hashes, has the core t, not empty |
| DocDialects.MarkedIsExact | crates/sap-automate-kb/src/doc_tree.rs:388-447 | the same for the other dialect: a section marker, of depth one, or d groups of digits closed by a dot and a blank, with a core t that is not empty |
| Trimming.StripIs | crates/sap-automate-kb/src/doc_tree.rs:362-362 | trimming leaves exactly the core: the part between such characters that neither starts nor ends with one |
| Trimming.SpaceIsWhiteSpace | crates/sap-automate-kb/src/doc_tree.rs:339-339 | the characters trimmed are exactly those with the property White_Space of the Unicode Character Database |
| DocSections.Detect | crates/sap-automate-kb/src/doc_tree.rs:305-331 | the line loop finds exactly the headings of the lines of the body, for either dialect |
| DocSections.HeadingsAreExact | crates/sap-automate-kb/src/doc_tree.rs:293-410 | every line written as a heading gives one, with its depth, its title, the start of its line and the start of the next, and nothing else does |
| DocSections.HeadingsOrdered | crates/sap-automate-kb/src/doc_tree.rs:305-331 | for any dialect that rejects the empty line, headings lie in the body in order, and each text starts behind its marker and no later than the next marker or the end |
| DocSections.TextLiesInSection | crates/sap-automate-kb/src/doc_tree.rs:165-182 | the text of each section is a range inside the section, so the slice its summary is taken from exists |
| DocSections.DetectHeadings | crates/sap-automate-kb/src/doc_tree.rs:293-300 | the list holds exactly the headings of the body, in order, and the first dialect with any heading decides |
| DocSections.Prepare | crates/sap-automate-kb/src/doc_tree.rs:157-172 | the window loop closes each section at the next marker |
| DocSections.PreparedAt | crates/sap-automate-kb/src/doc_tree.rs:150-172 | there is one section per heading, with its depth and title and its range up to the next |
| DocSections.RangesAdjacent | crates/sap-automate-kb/src/doc_tree.rs:159-171 | consecutive section ranges meet, the first starts at the first marker, the last ends at the end of the body |
| DocSections.RangesTile | crates/sap-automate-kb/src/doc_tree.rs:159-171 | every position from the first marker on lies in exactly one section |
| DocSections.BuildDocumentTree | crates/sap-automate-kb/src/doc_tree.rs:120-249 | the finished tree reads back in preorder as one section for each heading of the body, up to the next one, with nearest-ancestor parents, assigned paths and the maximal depth |
| DocTree.SpinePointers | crates/sap-automate-kb/src/doc_tree.rs:174-178 | every stack pointer is an address on the rightmost spine, each one below the one before |
| DocTree.PushMovesNoPointer | crates/sap-automate-kb/src/doc_tree.rs:206-221 | no pointer on the stack points into the vector that a push grows |
| DocTree.PushNode | crates/sap-automate-kb/src/doc_tree.rs:212-220 | the unsafe push needs that no live pointer is moved, and then all of them still point to a node and the new one to the pushed node |
| DocTree.GrowIsPush | crates/sap-automate-kb/src/doc_tree.rs:212-216 | pushing through the top pointer is growing the rightmost spine at its end |
| DocTree.GrowPreorder | crates/sap-automate-kb/src/doc_tree.rs:213-213 | a push appends the node to the preorder |
| DocTree.GrowParents | crates/sap-automate-kb/src/doc_tree.rs:206-213 | a push appends the index of the stack's top as the parent and changes no other parent |
| DocTree.GrowSpine | crates/sap-automate-kb/src/doc_tree.rs:214-220 | after the push the stack with the new pointer is again the rightmost spine |
| DocTree.PopFindsNearest | crates/sap-automate-kb/src/doc_tree.rs:196-204 | after popping, the top is the nearest earlier section of smaller depth |
| DocTree.PopTo | crates/sap-automate-kb/src/doc_tree.rs:198-204 | the pop loop keeps the stack invariant and stops at that section |
| DocTree.AddSection | crates/sap-automate-kb/src/doc_tree.rs:180-222 | one iteration keeps the loop invariant |
| DocTree.NearestAllAt | crates/sap-automate-kb/src/doc_tree.rs:196-206 | the parent list gives, for each section, the nearest earlier section of smaller depth |
| DocTree.BuildForest | crates/sap-automate-kb/src/doc_tree.rs:174-222 | the forest's preorder is the section list, parents are nearest ancestors, and the depth reported is the largest |
| DocPaths.ValueOfDecimal | crates/sap-automate-kb/src/doc_tree.rs:225-226 | a decimal numeral denotes its number |
| DocPaths.PathInjective | crates/sap-automate-kb/src/doc_tree.rs:251-257 | different addresses have different dotted paths as strings |
| DocPaths.RootsAreAddressed | crates/sap-automate-kb/src/doc_tree.rs:224-227 | path assignment gives every node the dotted path of its address |
| DocPaths.FindReturnsNode | crates/sap-automate-kb/src/doc_tree.rs:75-87 | searching the tree for the path of any node returns that very node |
| SoapText.XmlEscape | crates/sap-automate-rfc/src/soap.rs:413-426 | the loop escapes character by character |
| SoapText.UnescapeEscape | crates/sap-automate-rfc/src/soap.rs:413-426 | unescaping undoes escaping for every string (section 4.6 of XML 1.0) |
| SoapText.StripEscape | crates/sap-automate-rfc/src/soap.rs:436-438 | trimming raw spaces commutes with escaping |
| SoapText.TextComesBack | crates/sap-automate-rfc/src/soap.rs:479-491 | escaped text trimmed by the reader, unescaped and trimmed again is the trimmed original |
| Soap.ValidationIsExact | crates/sap-automate-rfc/src/soap.rs:388-411 | validation accepts a value exactly when every key at every level is a safe name, and otherwise names one that is not |
| Soap.SafeNameIsListed | crates/sap-automate-rfc/src/soap.rs:382-386 | a name is safe exactly when it has one to sixty characters, each a letter or digit of ASCII, an underscore or a slash |
| Soap.WriteParams | crates/sap-automate-rfc/src/soap.rs:334-338 | the writer appends exactly the rendering of the fields to the buffer |
| Soap.WriteValue | crates/sap-automate-rfc/src/soap.rs:340-367 | appends exactly the rendering of the value, nothing for null |
| Soap.WriteItem | crates/sap-automate-rfc/src/soap.rs:352-376 | appends the item, empty for an array directly inside an array |
| Soap.TokenizeBody | crates/sap-automate-rfc/src/soap.rs:340-367 | every validated value, in any surroundings, tokenizes into the events of its own structure, so no string can add or remove an element |
| Soap.TokenizeFields | crates/sap-automate-rfc/src/soap.rs:334-338 | the same for parameter objects |
| Soap.TokenizeItems | crates/sap-automate-rfc/src/soap.rs:349-360 | the same for array items |
| SoapRead.ParseChildren | crates/sap-automate-rfc/src/soap.rs:456-495 | the recursive loop computes the reference reading, errors included |
| SoapRead.ElementReadsBack | crates/sap-automate-rfc/src/soap.rs:456-516 | the events of any value whose rendered keys are plain, at any depth, read back as its normal form if it fits under the cap, else as an error |
| SoapRead.FieldsReadBack | crates/sap-automate-rfc/src/soap.rs:468-473 | the same for the fields of an object behind those already read |
| SoapRead.ItemsReadBack | crates/sap-automate-rfc/src/soap.rs:505-516 | repeated items fold into one array in order |
| SoapRequest.NoKeyClosesTheCall | crates/sap-automate-rfc/src/soap.rs:246-252 | no validated key or value closes an element whose name has a colon, such as the call element, so the call stays one call |
| SoapRequest.SlashedEndIsNotPassed | crates/sap-automate-rfc/src/soap.rs:466-489 | whatever surrounds it, a successful read never passes the end tag of a name with a slash at an end |
| SoapRequest.RoundTrip | crates/sap-automate-rfc/src/soap.rs:334-516 | text to text, inside any element no key can close: a validated parameter object reads back as its normal form if every rendered key is plain and the nesting is within the cap, and is refused otherwise |
| SoapRequest.RequestRoundTrip | crates/sap-automate-rfc/src/soap.rs:323-331 | the whole request, for every validated function name and parameter object: the payload of its body reads back as the normal form exactly when the function name does not end in a slash, every rendered key is plain and the nesting is within the cap; otherwise it is refused |
| SoapRequest.LeadingSlashIsAnEndTag | crates/sap-automate-rfc/src/soap.rs:380-386 | inside an element with a safe name, a first rendered key with a leading slash ends the read: with nothing if it closes that element, with an error if not |
| SoapMirror.ReadMirrorsParameters | crates/sap-automate-rfc/src/soap.rs:334-516 | whatever is read back of a request mirrors its parameters at every level: flags as "X" or nothing, numbers as their text, strings as their core, no null fields, items in order |
| SoapMirror.FlagComesBack | crates/sap-automate-rfc/src/soap.rs:343-346 | a flag field comes back as "X" if and only if it is true, and as nothing if and only if it is false |
| SoapMirror.FlagItemComesBack | crates/sap-automate-rfc/src/soap.rs:369-376 | the same of an item of a list |
| SoapMirror.DeepestRequest | crates/sap-automate-rfc/src/soap.rs:432-462 | parameters nested n deep are read back if and only if n is at most 253 |
| SoapMirror.TextIsReadOrSkipped | crates/sap-automate-rfc/src/soap.rs:479-483 | a text with a reference that is none of the five predefined entities is skipped, any other is read behind what was read before |
| SoapMirror.EmptyTagReadsAsElement | crates/sap-automate-rfc/src/soap.rs:468-478 | an empty-element tag reads exactly as its start and end tag, except at the cap, where only the two tags are refused |
| SoapMirror.EmptyTagText | crates/sap-automate-rfc/src/soap.rs:474-478 | `<a/>` in a text is such a tag, for every plain name |
| WriteGate.Walk | crates/sap-automate-rfc/src/bapiret2.rs:97-116 | the recursive walk appends exactly the rows of the value to the output |
| WriteGate.WalkFindsRows | crates/sap-automate-rfc/src/bapiret2.rs:97-116 | a value is collected if and only if some path of at most eight levels, not through another row, leads to it and it is a row |
| WriteGate.RowsInDocumentOrder | crates/sap-automate-rfc/src/bapiret2.rs:91-116 | the rows come in document order, each place within eight levels that no other row encloses exactly once |
| WriteGate.SeverityIs | crates/sap-automate-rfc/src/bapiret2.rs:43-53 | severity is told by the first letter of the row's type text, in either case: S, E, W, I, A, and unknown otherwise |
| WriteGate.MessageTellsRow | crates/sap-automate-rfc/src/bapiret2.rs:118-147 | each message has the severity of its row's type text and the text of its message entry, the upper-case names first, strings and numbers only |
| WriteGate.ParsedMessages | crates/sap-automate-rfc/src/bapiret2.rs:83-89 | messages fail exactly when the type text of some row within eight levels does not begin with S, W or I in either case, and are empty exactly when there is no such row |
| WriteGate.ConfirmedMeansRows | crates/sap-automate-rfc/src/bapiret2.rs:43-58 | success is confirmed exactly when there is a row within eight levels and the type text of every such row begins with S, s, W, w, I or i |
| WriteGate.IssueRollback | crates/sap-automate-rfc/src/transaction.rs:44-58 | sends one rollback and confirms it only on a clean reply |
| WriteGate.RunUnit | crates/sap-automate-rfc/src/transaction.rs:105-142 | case by case, the calls sent, the flags and the messages reported |
| WriteGate.ExecuteWriteBapi | crates/sap-automate-rfc/src/transaction.rs:86-142 | for every client the trace is empty, B, BR, BC or BCR; C is sent exactly when the rows of B's reply confirm success, told by their entries; committed holds only for a clean BC and never together with rolled_back; a lost reply to B or C ends without rollback; a reply without rows and a lost rollback are warned of |
| Breaker.TransientFaults | crates/sap-automate-rfc/src/error.rs:44-113 | exactly a timeout, an unreachable destination, an exhausted pool and an open circuit are worth a retry |
| Breaker.CountedExactly | crates/sap-automate-rfc/src/retry.rs:132-153 | exactly these are counted, a success sets the count back, and any other fault leaves the breaker as it is |
| Breaker.CircuitBreaker.Tick | crates/sap-automate-rfc/src/retry.rs:105-115 | the critical section turns open into half-open exactly when the period is over |
| Breaker.CircuitBreaker.Enter | crates/sap-automate-rfc/src/retry.rs:118-130 | refuses exactly when open after the tick, with the remaining period in whole milliseconds |
| Breaker.CircuitBreaker.Settle | crates/sap-automate-rfc/src/retry.rs:132-153 | the new fields after a settled call |
| Breaker.HistoryDecides | crates/sap-automate-rfc/src/retry.rs:105-153 | over every interleaving all three fields are functions of the history: failures since the last success, time of the last of them, whether the breaker was probed after the period |
| Breaker.ClosedIffBelowThreshold | crates/sap-automate-rfc/src/retry.rs:134-151 | failures is the number of transient failures settled since the last settled success, closed if and only if it is below the threshold, opened_at set if and only if not closed |
| Breaker.AdmitsExactly | crates/sap-automate-rfc/src/retry.rs:123-130 | a call starts if and only if the count is below the threshold or the open period since the last failure is over |
| Breaker.NoEarlyStart | crates/sap-automate-rfc/src/retry.rs:118-153 | in every run every started call was so allowed, and every refused one was not |
| Breaker.RemainingIsExact | crates/sap-automate-rfc/src/retry.rs:125-128 | while nothing settles, a call starts once the remaining period is over, and none starts sooner unless it was over before the wait was computed |
| Breaker.AdvertisedWaitIsCut | crates/sap-automate-rfc/src/retry.rs:129-129 | waiting one millisecond longer than advertised always starts; waiting as long as advertised starts if and only if a whole number of milliseconds remained |
| Breaker.ThresholdMustBePositive | crates/sap-automate-rfc/src/retry.rs:86-96 | the count decides the state in every run if and only if the threshold is positive |
| Breaker.RetryWithBackoff | crates/sap-automate-rfc/src/retry.rs:36-63 | returns the first answer that is not one of these four faults, or the answer to the last attempt; sleeps start at the initial delay and then obey the cap |
| Breaker.WaitIsBounded | crates/sap-automate-rfc/src/retry.rs:56-60 | the total wait is at most the initial delay plus the cap for each further sleep |
| MetadataCache.MetadataCache.GetFresh | crates/sap-automate-rfc/src/metadata_cache.rs:93-101 | answers exactly from entries at most one TTL old |
| MetadataCache.MetadataCache.RfcMetadata | crates/sap-automate-rfc/src/metadata_cache.rs:122-137 | the answer and the new cache after a single lookup, error path included |
| MetadataCache.MetadataCache.Divide | crates/sap-automate-rfc/src/metadata_cache.rs:142-150 | the loop splits the names into cached answers and names to ask for, in order |
| MetadataCache.MetadataCache.BulkRfcMetadata | crates/sap-automate-rfc/src/metadata_cache.rs:139-174 | the answer and the new cache after a bulk lookup, error path included |
| MetadataCache.MetadataCache.InvalidateAll | crates/sap-automate-rfc/src/metadata_cache.rs:86-91 | drops every entry and counts the evictions |
| MetadataCache.EntriesWereGiven | crates/sap-automate-rfc/src/metadata_cache.rs:103-109 | over any run every entry is an answer the client gave as the record of that name and language since the last invalidation |
| MetadataCache.GivenWasAsked | crates/sap-automate-rfc/src/metadata_cache.rs:163-166 | if the client's bulk answers list only names it was asked for, a record given in bulk is of a name asked for |
| MetadataCache.TtlIsKept | crates/sap-automate-rfc/src/metadata_cache.rs:66-67 | with a TTL of zero nothing is ever stored |
| MetadataCache.AnswerIsSourced | crates/sap-automate-rfc/src/metadata_cache.rs:122-137 | each answer is the client's in this call, or one it gave for the same name and language since the last invalidation, stored at most one TTL ago |
| MetadataCache.BulkAnswerIsSourced | crates/sap-automate-rfc/src/metadata_cache.rs:139-174 | the same for every record of a bulk answer |
| MetadataCache.ServedExactly | crates/sap-automate-rfc/src/metadata_cache.rs:93-137 | over any run whose clock does not go back, a lookup is answered without the client if and only if the client gave a record of that name and language, alone or in bulk, since the last invalidation and at most one TTL ago |
| MetadataCache.AskedExactly | crates/sap-automate-rfc/src/metadata_cache.rs:139-161 | and a bulk lookup asks the client for exactly the other names |
| MetadataCache.EveryNameIsCounted | crates/sap-automate-rfc/src/metadata_cache.rs:151-155 | over any run hits and misses add up to the names looked up |
| MetadataCache.MissesAreAsked | crates/sap-automate-rfc/src/metadata_cache.rs:122-155 | and the misses are the names the client was asked for |
| MetadataCache.DivisionIsPermutation | crates/sap-automate-rfc/src/metadata_cache.rs:144-173 | cached answers and those fetched for the rest together are a permutation of the uncached answer, with the same missing names in order |
| MetadataCache.CacheIsTransparent | crates/sap-automate-rfc/src/metadata_cache.rs:122-174 | for an unchanging catalogue, after any run, single answers equal the client's own and bulk answers are a permutation with the same missing list |
| RateLimiter.RateLimiter.SetInterval | crates/sap-automate-ingest/src/rate_limit.rs:44-51 | sets the interval and keeps the planned slot of a known host |
| RateLimiter.RateLimiter.AcquireWait | crates/sap-automate-ingest/src/rate_limit.rs:57-73 | the wait ends at the granted time, and the next slot is one interval later |
| RateLimiter.BucketTells | crates/sap-automate-ingest/src/rate_limit.rs:57-73 | the bucket of a host holds its earliest next grant and the last interval set |
| RateLimiter.NextGrant | crates/sap-automate-ingest/src/rate_limit.rs:64-72 | each grant is the maximum of the clock reading and the previous grant plus the interval in force when that was given, for clock readings in any order |
| RateLimiter.GrantsAreSpaced | crates/sap-automate-ingest/src/rate_limit.rs:69-71 | consecutive grants of a host are at least the least interval apart that was in force at a grant |
| RateLimiter.WindowHoldsFew | crates/sap-automate-ingest/src/rate_limit.rs:1-6 | any window of length W holds at most W / m + 1 grants of a host, m being at most the intervals in force at its grants |
| RateLimiter.SlowedHostIsSlow | crates/sap-automate-ingest/src/rate_limit.rs:34-51 | a host slowed down before its first fetch has that bound with its own interval, whatever the default |
| RateLimiter.BurstIsPaced | crates/sap-automate-ingest/src/rate_limit.rs:64-72 | a burst is granted one slot per interval, so the bound is attained |
| RateLimiter.OtherHostsDoNotMatter | crates/sap-automate-ingest/src/rate_limit.rs:14-20 | the grants and the bucket of a host depend only on the operations on that host |
| Chunker.NextBoundary | crates/sap-automate-ingest/src/chunker.rs:97-98 | the result is the first character boundary at or after the position |
| Chunker.FindSentenceEnd | crates/sap-automate-ingest/src/chunker.rs:112-125 | returns the last sentence end in range, none only if there is none |
| Chunker.FindSpace | crates/sap-automate-ingest/src/chunker.rs:146-156 | returns the last blank at most 200 bytes back, none only if there is none |
| Chunker.FindEnd | crates/sap-automate-ingest/src/chunker.rs:87-98 | computes the end of a window |
| Chunker.WindowEndBounds | crates/sap-automate-ingest/src/chunker.rs:87-98 | a window is not empty, ends on a character boundary, has at most target + 3 bytes, and at least target - 200 unless it is the last |
| Chunker.NextStartBounds | crates/sap-automate-ingest/src/chunker.rs:105-107 | the next start is a boundary in [end - overlap, end] behind the last start |
| Chunker.SplitText | crates/sap-automate-ingest/src/chunker.rs:80-110 | for every body, target and overlap the loop terminates, with exactly the windows of the reference split, which end and start well, or with its panic |
| Chunker.WindowsEndWell | crates/sap-automate-ingest/src/chunker.rs:72-110 | for every body, target and overlap each window ends behind the last sentence in reach (one of `.?!` and a blank or newline), else behind the last word in reach, else at its length, and the next starts the overlap before that, each moved on to a character boundary |
| Chunker.BoundaryIs | crates/sap-automate-ingest/src/chunker.rs:97-107 | a boundary is where no byte with the upper bits 10 stands |
| Chunker.SplitIsLaid | crates/sap-automate-ingest/src/chunker.rs:80-110 | for any UTF-8 body and target above 200 the windows run from the start to the last byte, each within bounds and chained to the next without a gap |
| Chunker.WindowsCover | crates/sap-automate-ingest/src/chunker.rs:72-79 | every byte lies in a window |
| Chunker.StartsAdvance | crates/sap-automate-ingest/src/chunker.rs:106-107 | window k starts at least k(target - 200 - overlap) bytes behind the first |
| Chunker.DefaultWindowCount | crates/sap-automate-ingest/src/chunker.rs:72-79 | with target 1600 and overlap 200 there are at most n / 1200 + 1 windows |
| Chunker.ShortTargetSkipsByte | crates/sap-automate-ingest/src/chunker.rs:146-156 | the whole run on one body for every target up to 200: its windows leave byte 1 out |
| Chunker.ShorterTargetPanics | crates/sap-automate-ingest/src/chunker.rs:100-100 | for every target below 200 the run on another body ends in a slice whose end lies before its start |
| Chunker.PanicFreeExactly | crates/sap-automate-ingest/src/chunker.rs:80-110 | the split finishes on every UTF-8 body exactly when the target is at least 200 |
| Chunker.CompleteExactly | crates/sap-automate-ingest/src/chunker.rs:80-110 | every byte of every UTF-8 body lies in a window exactly when the target is above 200 |
| Fusion.Accumulate | crates/sap-automate-rag/src/lib.rs:299-305 | after a loop the table holds exactly the chunks seen, each with the sum of its contributions |
| Fusion.FuseAll | crates/sap-automate-rag/src/lib.rs:297-316 | every chunk of either ranking exactly once, with its fused score, in descending order |
| Fusion.ReciprocalRankFusion | crates/sap-automate-rag/src/lib.rs:288-319 | at most cap hits, distinct, descending, with fused scores, and a chunk is left out only for cap hits that score at least as much |
| Fusion.ScoreAtRank | crates/sap-automate-rag/src/lib.rs:299-300 | without duplicates a chunk scores by its rank alone |
| Fusion.FusionIsMonotone | crates/sap-automate-rag/src/lib.rs:288-290 | a chunk ranked no worse in both rankings never scores lower |
| Fusion.ConsensusWins | crates/sap-automate-rag/src/lib.rs:291-319 | with duplicate-free rankings of length at most k + 1, a chunk in both scores strictly above a chunk in only one |
| Fusion.ConsensusIsAPrefix | crates/sap-automate-rag/src/lib.rs:316-318 | so in the kept hits all chunks of both rankings come first, and none is cut for one of a single ranking |
| Fusion.LongerListsTie | crates/sap-automate-rag/src/lib.rs:299-300 | the length bound is exact: at k + 2 such a chunk can tie with one of a single ranking |
| Base64.TableIsAlphabet | crates/sap-automate-adt/src/http.rs:843-843 | the table is the alphabet of section 4 of RFC 4648 |
| Base64.Encode | crates/sap-automate-adt/src/http.rs:844-874 | the loop and its tail compute the reference encoding |
| Base64.DecodeEncoded | crates/sap-automate-adt/src/http.rs:844-874 | a strict decoder inverts the encoder for every byte string |
| Base64.EncodedDecode | crates/sap-automate-adt/src/http.rs:844-874 | what that decoder accepts is the encoding of what it returns |
| Base64.EncodedShape | crates/sap-automate-adt/src/http.rs:846-872 | the length is 4 * ceil(n / 3), with padding at the end and nowhere else |

## Left out

- Rounding of `f32`, wrap-around of id counters after 2^63 calls and of the breaker's failure counter after 2^32.
- Duplex: failing writer tasks, the shutdown of the server, responses with non-numeric ids, and handlers that never
  return; a task's return and the queueing of its reply are one step.
- Duplex: `dispatch` is an arbitrary handler; method lookup, protocol version selection and error mapping are easy.
- Louvain: `build_communities_from_membership` and `renumber` only group and rename the final membership.
- DocSections: summaries, token counts and leaf counts of the nodes; the body is a sequence of ASCII characters, so
  byte offsets are positions.
- MultiHop.SearchGraph: negative edge weights, for which shares are no proportions.
- SoapRead: comments, CDATA and numeric character references, which the writer never emits; attribute values are
  skipped; fault extraction, which is a lookup.
- WriteGate: message class, number, parameter, row, field and system of a BAPIRET2 row, which decide nothing.
- MetadataCache: concurrent lookups of the same name, whose answers may interleave; the model's runs are sequential.
- MetadataCache.CacheIsTransparent: needs a catalogue that lists each record under its own name, as
  crates/sap-automate-rfc/src/client.rs:275 does, because bulk answers are stored under the name in the record.
- Chunker: trimming of the slices cut and dropping of blank ones; context prefixes.
- Fusion: the payload of a hit.
- Fusion.ReciprocalRankFusion: smoothing constants for which some rank of the lists given divides by zero, where `f32`
  scores become infinite; the same holds of Fusion.FuseAll, Fusion.Accumulate and Fusion.ScoreAtRank.
- Breaker.RetryWithBackoff: the `f32` multiplication of the delay is an arbitrary function.
- Percent encoding (crates/sap-automate-adt/src/http.rs:877-888) and `rank_overlap`
  (crates/sap-automate-rag/src/lib.rs:260-268): true but easy.
- Pool semaphore, audit log, skills, counters and ring buffers: true but easy.
- HTTP transports, OAuth, CSRF, Qdrant, OData, BM25, embeddings, reranking, ADT response scraping, mock fixtures, the
  scheduler, and the applications: network clients, wiring, or behaviour fixed outside the repository.
