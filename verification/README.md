# A verified model of the digital-twin platform's core

The project models, in Dafny, the parts of the platform where the logic is, and proves what they promise on all
inputs, over whole runs and in every reachable state. Code that updates state is modelled as classes and loops that
are proved against functions and predicates over their inputs and history; the laws are then proved about those.

| module | what it models |
|---|---|
| TwinGraph | breadth-first path search and neighbour queries over twin relationships |
| TaskPlanner | dependency graph, topological order and parallel groups of sub-tasks |
| SyncClock, LwwRegister, OrSet | hybrid logical clocks, last-writer-wins registers, conflict resolution, tagged sets |
| Ontology, OntologyTree | the concept hierarchy: cycle check, creation, reparenting, the printed tree |
| Decimal, AddressMapping | Modbus and BACnet point addresses, printed and read back |
| EventStream, Json, JsonDumps, SseGenerator, SseRoundTrip | the server-sent-event printer with its JSON, a client by section 9.2.6 of the WHATWG HTML Living Standard and by RFC 8259, and the two together |
| ShortTermMemory, CostTracker | bounded stores that answer for unbounded histories |
| CircuitBreaker | circuit breaking, retry with backoff, health checks |
| Activation | activation logs together with the runtime registry |
| Provisioning, ProvisioningExecutor | plan generation and idempotent execution |
| Common | Option, Result and facts about sequences and sets |

`dafny verify dfyconfig.toml` checks everything.

## Model

| member | source | states |
|---|---|---|
| TwinGraph.Repository.ListSource | services/twin_graph/repositories.py:31-41 | Only live rows of the tenant that leave the entity are reported, at most 100 of them, and all of them if there are at most 100. |
| TwinGraph.Repository.ListTarget | services/twin_graph/repositories.py:43-53 | Only live rows of the tenant that enter the entity are reported, at most 100 of them, and all of them if there are at most 100. |
| TwinGraph.ListedExactly | services/twin_graph/repositories.py:31-53 | A relationship is listed exactly if it is a live row of the entity with fewer than 100 such rows before it in the table. |
| TwinGraph.FindPath | services/twin_graph/query.py:67-135 | A path is returned exactly when some walk of at most `max_depth` relationships (in either direction) joins source to target, or they are equal. It starts with the source as a plain start step, ends at the target, follows recorded types and directions, repeats no entity, and no walk in the two-way graph is shorter. Always terminates. |
| TwinGraph.Expand | services/twin_graph/query.py:100-115 | One direction of an expansion: visited neighbours are skipped, the target ends the search with a shortest path, every other neighbour is marked visited, and the labelling of visited entities by distance stays valid. |
| TwinGraph.ExpandBothWays | services/twin_graph/query.py:99-133 | After both directions the expanded entity is settled: all its neighbours are labelled. |
| TwinGraph.PopKeepsValid | services/twin_graph/query.py:91-95 | Taking the head of the queue keeps the invariant that queued paths differ in length by at most one, nearer ones first. |
| TwinGraph.LabelKeepsValid | services/twin_graph/query.py:105-115 | Enqueuing an unvisited neighbour keeps the invariant. |
| TwinGraph.WalkStaysLabelled | services/twin_graph/query.py:88-133 | If every entity closer than a bound has been expanded, every walk up to that bound ends in a visited entity no deeper than the walk is long. |
| TwinGraph.TargetIsFarther | services/twin_graph/query.py:88-133 | While level d is being expanded no walk of d or fewer relationships reaches the target. |
| TwinGraph.TargetIsOutOfReach | services/twin_graph/query.py:93-135 | An empty queue means no walk within the depth bound reaches the target. |
| TwinGraph.FoundIsShortest | services/twin_graph/query.py:105-109 | The path returned early, at the moment the target is generated, is already a shortest one without repetition. |
| TwinGraph.GetNeighbors | services/twin_graph/query.py:21-65 | A step is reported if and only if a listed row of the twin gives it, in a direction asked for, with another entity at the other end and the type asked for, if any; one step for each such row, outgoing before incoming; other directions report nothing. |
| TwinGraph.NeighborsExactly | services/twin_graph/query.py:40-65 | The same of the specification, for every twin, type and direction. |
| TwinGraph.StepsAreHops | services/twin_graph/query.py:99-133 | The listed outgoing and incoming rows give exactly the steps of the two-way graph. |
| TwinGraph.NeighborsAreHops | services/twin_graph/query.py:40-65 | Unfiltered neighbours in both directions are exactly the hops to other entities; each step of a repetition-free path is reported as a neighbour of the entity before it. |
| TwinGraph.HopBack | services/twin_graph/repositories.py:31-53 | If what is within the row limit at one end is so at the other, every hop can be taken back, with the same type and the other direction. |
| TwinGraph.HopsGoBackExactly | services/twin_graph/repositories.py:31-53 | Every hop can be taken back so if and only if every relationship that is among the first 100 rows of one of its ends is among the first 100 of the other. |
| TwinGraph.FewRowsAreSeen | services/twin_graph/repositories.py:31-53 | That holds in particular where no entity has more than 100 live rows either way. |
| TwinGraph.WalkBack | services/twin_graph/query.py:85-133 | Where every row within the limit that leads from one entity to another has one that leads back, every walk has a reverse of the same length. |
| TwinGraph.DistanceIsSymmetric | services/twin_graph/query.py:67-135 | Shortest paths are equally long both ways, or both missing, for all pairs of entities, if and only if wherever a row within the limit leads from one entity to another, some row within the limit leads back. |
| TwinGraph.RowLimitBreaksSymmetry | services/twin_graph/repositories.py:31-53 | The table whose 101 rows enter one entity: its last row leads in but not back out, so hops and distances are one-way there. |
| TaskPlanner.AddDependents | services/ai/agent/planner.py:178-181 | One task becomes a dependent of exactly its known dependencies; nothing else changes. |
| TaskPlanner.DeclareNodes | services/ai/agent/planner.py:175-177 | One node per id, in the order of first declarations, with the dependencies of the last declaration and no dependents. |
| TaskPlanner.BuildDag | services/ai/agent/planner.py:170-182 | For any sub-tasks: the graph has exactly the declared tasks, the dependencies of their last declarations, unknown ones included, and as dependents those that list a task in any declaration. |
| TaskPlanner.LinkedExactly | services/ai/agent/planner.py:170-182 | `dependents` is the inverse of `deps` if and only if no later declaration of a task drops a known dependency. |
| TaskPlanner.DistinctWithdrawsNothing | services/ai/agent/planner.py:31 | With distinct ids, as documented, nothing is dropped. |
| TaskPlanner.TopologicalSort | services/ai/agent/planner.py:69-83 | On any graph: succeeds exactly when some order puts before every task as many tasks that have it as a dependent as it has dependencies, and returns such an order. If `dependents` inverts `deps`, succeeds exactly when every dependency is known and there is no cycle; the order then lists every task once, each after all its dependencies. |
| TaskPlanner.Place | services/ai/agent/planner.py:74-80 | One round keeps every counter at the dependencies minus the placed tasks that notify, and the queue at the tasks whose counter has come down to zero. |
| TaskPlanner.Release | services/ai/agent/planner.py:77-80 | Whatever the iteration order over the dependents, each loses one from its counter, and those that reach zero are queued once. |
| TaskPlanner.OrderedIsSchedulable | services/ai/agent/planner.py:69-83 | Any valid order rules out cycles and unknown dependencies. |
| TaskPlanner.ChainFollowsOrder | services/ai/agent/planner.py:69-83 | Tasks of a dependency chain appear in the order at increasing positions. |
| TaskPlanner.StuckHasCycle | services/ai/agent/planner.py:81-82 | A non-empty set of tasks that all wait inside the set contains a dependency cycle (pigeonhole). |
| TaskPlanner.LeftOversAreStuck | services/ai/agent/planner.py:81-82 | If the queue runs empty too early on a linked graph, there is a cycle or an unknown dependency, so raising is right. |
| TaskPlanner.LeftOversAreNeverReleased | services/ai/agent/planner.py:81-82 | If the queue runs empty too early on any graph, no release order exists. |
| TaskPlanner.ReleaseOrderIsExecutionOrder | services/ai/agent/planner.py:69-83 | On a linked graph every release order puts each task after all its dependencies. |
| TaskPlanner.RedeclarationHidesCycle | services/ai/agent/planner.py:170-182 | A task declared twice, with a dependency dropped, lets the sort accept tasks that depend on each other. |
| TaskPlanner.ParallelGroups | services/ai/agent/planner.py:86-104 | On any order the groups are safe: dependencies in strictly earlier groups, no task twice, and whatever is left out waits for something left out or unknown. On a valid order they partition the tasks; a task is in group g exactly when its longest dependency chain has g + 1 tasks. |
| TaskPlanner.StartedGroup | services/ai/agent/planner.py:101-103 | Adding a group of tasks that can start keeps the groups safe. |
| TaskPlanner.CollectReady | services/ai/agent/planner.py:94-100 | The inner loop collects exactly the unfinished tasks whose dependencies are all completed, in execution order. |
| TaskPlanner.GroupAdded | services/ai/agent/planner.py:101-103 | Adding the collected group keeps the layering invariant. |
| TaskPlanner.StartsAfterLongest | services/ai/agent/planner.py:98-100 | A task that can start now has a longest chain of exactly one more task than there are groups. |
| TaskPlanner.WaitsEvenLonger | services/ai/agent/planner.py:98-100 | A task that cannot start yet has an even longer chain. |
| TaskPlanner.GroupsAreSafe | services/ai/agent/planner.py:86-104 | Every dependency lies in a strictly earlier group, and no task is in two groups. |
| TaskPlanner.LayeringClimbsChain | services/ai/agent/planner.py:86-104 | Any assignment of levels that respects dependencies climbs along every chain. |
| TaskPlanner.GroupsAreLowest | services/ai/agent/planner.py:86-104 | No such assignment puts a task below its group index, so none has fewer groups. |
| TaskPlanner.ThereIsOneGraph | services/ai/agent/planner.py:170-182 | The declarations determine the graph, dependents included. |
| TaskPlanner.OneStepPerTask | services/ai/agent/planner.py:137-142 | With distinct ids there are as many steps as sub-tasks. |
| TaskPlanner.MakePlan | services/ai/agent/planner.py:132-143 | The composition, for any sub-tasks and the one graph they determine: succeeds exactly when the sort can, with safe groups and one step per task. If no declaration drops a known dependency: exactly when the graph can be scheduled, with a valid order and the layering by longest chain. |
| SyncClock.IsAfterIsStrictWeakOrder | services/sync/engine.py:58-64 | `is_after` is a strict weak order in which physical time decides first and the counter second; two stamps tie exactly when both agree, whatever the nodes. |
| SyncClock.DistinctStampsCanTie | services/sync/engine.py:20-28 | The documented total ordering fails: two different stamps with neither after the other. |
| SyncClock.SyncEngine.UploadTelemetry | services/sync/engine.py:208-222 | Connected: all points accepted and one clock step; disconnected: all points queued in order and no clock step. |
| SyncClock.SyncEngine.Heartbeat | services/sync/engine.py:235-246 | One clock step, and the new stamp is the answer. |
| SyncClock.SyncEngine.constructor | services/sync/engine.py:188-196 | A new engine starts disconnected, with the current time and counter 0. |
| SyncClock.PlayPrefix | services/sync/engine.py:42-56 | Stamps once given never change when the run goes on. |
| SyncClock.ClockDominates | services/sync/engine.py:42-56 | A node's clock is never behind the stamp of any of its events. |
| SyncClock.DirectStepAdvances | services/sync/engine.py:42-64 | Along program order and along each message the stamp strictly advances. |
| SyncClock.CausalityIsRespected | services/sync/engine.py:42-64 | In every run of any nodes, an event that happens after another (transitively) has a stamp that `is_after` the other's. |
| SyncClock.ChainBounds | services/sync/engine.py:42-56 | Every chain of events bounds the stamp it leads to: counter by start plus length, physical time by start. |
| SyncClock.StampIsLongestChain | services/sync/engine.py:42-56 | In every run a stamp carries its own node, the greatest physical time any chain of events leading to it started from, and as counter the greatest sum of a chain's length and the counter it started from, all attained. |
| LwwRegister.Register.constructor | services/sync/engine.py:96-98 | A register starts with the given write. |
| LwwRegister.Register.Update | services/sync/engine.py:100-105 | The state becomes the later of the old state and the write; ties keep the old state. |
| LwwRegister.Register.Merge | services/sync/engine.py:107-111 | The answer holds the later of both states, ties in favour of this register; it is this very object or a new one. |
| LwwRegister.HoldsGreatest | services/sync/engine.py:100-111 | After any history of updates and merges the register holds an absorbed write that no absorbed write is after. |
| LwwRegister.HistoryFrom | services/sync/engine.py:100-111 | Any set of writes can be absorbed starting from any of its greatest writes, which is then the one held. |
| LwwRegister.ConvergenceIsAgreement | services/sync/engine.py:89-114 | All histories that absorb a set of writes agree on the value if and only if the writes of greatest stamp carry one value. |
| LwwRegister.UniqueStampsConverge | services/sync/engine.py:89-114 | If writes with tied stamps carry equal values, replicas that absorbed the same writes agree on value and stamp. |
| LwwRegister.TiedWritesDiverge | services/sync/engine.py:107-111 | A concrete pair of replicas that exchange tied writes and stay apart. |
| LwwRegister.ResolutionIsMerge | services/sync/engine.py:248-276 | Detecting and resolving a conflict under "lww" gives the value of the edge register merged into the cloud register. |
| LwwRegister.ResolutionIsSymmetric | services/sync/engine.py:267-282 | "merge" on sets does not depend on the side; "lww" on different values is independent of the side exactly when the stamps do not tie. |
| LwwRegister.DifferencesConflict | services/sync/engine.py:248-276 | A conflict exists exactly between different values and carries both writes; by default the edge value wins exactly when its stamp is after. |
| LwwRegister.MergeKeepsBoth | services/sync/engine.py:277-282 | "merge" on two sets keeps exactly what either holds; otherwise, and under other strategies, the edge wins. |
| OrSet.ORSet.Add | services/sync/engine.py:128-134 | The element gains the tag (a fresh one if absent or empty) and keeps its others, the index gains it too, all else unchanged. |
| OrSet.ORSet.Remove | services/sync/engine.py:136-147 | Without tags the element and its tags go; with tags only those go, and the element once none of its own is left. |
| OrSet.ORSet.Get | services/sync/engine.py:149-151 | Exactly the elements present. |
| OrSet.ORSet.Merge | services/sync/engine.py:153-163 | A new set with every element that has a tag on either side, under exactly one of those tags, in any iteration order. |
| OrSet.AddKeepsExact | services/sync/engine.py:128-134 | Adding keeps the tag index exact if and only if the tag is new or already on this element; the element becomes visible. |
| OrSet.TagsAreThoseLasting | services/sync/engine.py:128-147 | After any additions and removals the tags of an element are exactly those added for it and not removed since. |
| OrSet.VisibleWhileTagLasts | services/sync/engine.py:128-151 | An element is visible exactly while some tag added for it has not been removed since. |
| OrSet.IndexIsThoseLasting | services/sync/engine.py:128-147 | If tags are fresh and removals name own tags, `_tags` lists exactly the tags that last, each for one element. |
| OrSet.RemoveKeepsExact | services/sync/engine.py:136-147 | Removing keeps the tag index exact if and only if no tag of another element is named; the element disappears exactly when all its tags are. |
| OrSet.ForeignTagSpoilsIndex | services/sync/engine.py:136-147 | Two additions with fresh tags and a removal that names both tags: one element stays visible under a tag missing from the index. |
| OrSet.MergeShowsUnion | services/sync/engine.py:153-163 | The visible set of a merge is the union of the visible sets, whichever tags are picked. |
| OrSet.MergeCommutes | services/sync/engine.py:153-163 | Merge is commutative on `get`. |
| OrSet.MergeAssociates | services/sync/engine.py:153-163 | Merge is associative on `get`. |
| OrSet.MergeIsIdempotent | services/sync/engine.py:153-163 | Merge is idempotent on `get`. |
| OrSet.RemovalIsForgotten | services/sync/engine.py:136-163 | No tombstones: after removing an element and merging, it is visible exactly when the other side shows it. |
| OrSet.MergeUndoesRemoval | services/sync/engine.py:136-163 | A run of two replicas in which a merge brings an element back at the very replica that had removed it. |
| OrSet.MergeIsOwned | services/sync/engine.py:153-163 | A merge of sets whose tags belong to their elements has an exact index and the same owners. |
| OrSet.NextKeepsInv | services/sync/engine.py:128-163 | Each add with a fresh tag, remove of own tags, or merge keeps all replicas' indexes exact. |
| OrSet.RunsStayExact | services/sync/engine.py:117-163 | In every run of any replicas `_tags` is the disjoint union of the elements' non-empty tag sets, and no tag is empty. |
| Ontology.CycleCheckIsExact | services/ontology/services.py:141-150 | In any store, even a cyclic one, the check is true exactly when the concept is on the proposed parent's ancestor chain or that chain has more than 101 concepts. |
| Ontology.RankFalls | services/ontology/services.py:141-150 | In a ranked hierarchy ranks fall along every ancestor chain, which stays within the tenant. |
| Ontology.ForestHasNoCycle | services/ontology/services.py:141-150 | No concept of a forest is its own proper ancestor. |
| Ontology.OntologyService.CreateConcept | services/ontology/services.py:49-79 | Errors in the order duplicate code, category, missing parent, circular reference; every known parent is refused as circular; otherwise exactly one parentless row is added. |
| Ontology.OntologyService.UpdateConcept | services/ontology/services.py:88-107 | Unknown concepts are refused unchanged; in the session name and description change even when the parent is then refused; the parent changes exactly when it exists and the check is false. |
| Ontology.MoveKeepsForest | services/ontology/services.py:96-102 | Moving a whole subtree below a parent that passed the check keeps the forest. |
| Ontology.StepKeepsForest | services/ontology/services.py:49-107 | Every creation and update keeps the forest and the uniqueness of codes within a tenant. |
| Ontology.RunsKeepForest | services/ontology/services.py:49-107 | After every run of creations and updates the hierarchy is a forest with unique codes and no concept is its own proper ancestor. |
| Ontology.MoveIsRefusedExactly | services/ontology/services.py:96-102 | In any store a move is refused exactly for a missing parent, or as circular for a parent below the concept (or itself) or with a chain of more than 101 concepts; otherwise the parent changes. |
| Ontology.CreationDoes | services/ontology/services.py:49-79 | A creation succeeds exactly for a code unknown to the tenant in any case, one of six categories in any case, and no parent; errors in the source's order; it adds one row with these data, code and category in lower case, and changes no other. |
| Ontology.UpdateDoes | services/ontology/services.py:88-107 | An update sets exactly the given name and description, and the parent if the move is allowed; code, category, tenant and all other rows stay. |
| Ontology.RunsKeepVocabulary | services/ontology/services.py:49-107 | In every reachable hierarchy codes are in lower case and categories are known ones. |
| Ontology.CodeStaysTaken | services/ontology/services.py:49-53 | A code once in use by a tenant is refused ever after, in whatever case it is written. |
| OntologyTree.SortSorts | services/ontology/services.py:126-132 | Siblings come in name order for every collation that is a total preorder. |
| OntologyTree.SelectIsSorted | services/ontology/services.py:126-132 | The rows of one parent are delivered in name order. |
| OntologyTree.Select | services/ontology/services.py:126-132 | Exactly the tenant's rows with that parent, each once. |
| OntologyTree.SiblingsAreApart | services/ontology/services.py:124-139 | Two siblings, or two roots, have no common descendant. |
| OntologyTree.SiblingsListOnce | services/ontology/services.py:133-139 | The subtrees of siblings together list each descendant once. |
| OntologyTree.BelowIsSelfAndChildren | services/ontology/services.py:124-139 | The descendants of a concept are itself and the descendants of its selected children. |
| OntologyTree.NodeListsBelow | services/ontology/services.py:124-139 | `_build_node` terminates on a forest and lists the concept and each descendant exactly once, with its data, under its own parent. |
| OntologyTree.RootsCoverAll | services/ontology/services.py:111-118 | Every concept of the tenant descends from a parentless one. |
| OntologyTree.FullTreeListsEachOnce | services/ontology/services.py:109-139 | In every reachable hierarchy `get_tree` without a root lists each concept of the tenant exactly once and nothing else, under its own parent, with parentless concepts on top. |
| OntologyTree.RootedTreeListsBelow | services/ontology/services.py:119-122 | With a root it lists that concept and its descendants; an unknown root is the documented error. |
| OntologyTree.NodeIsInOrder | services/ontology/services.py:126-138 | The children of every node of a tree come in name order. |
| OntologyTree.FullTreeIsInOrder | services/ontology/services.py:109-139 | In every reachable hierarchy the roots and the children of every node come in name order. |
| Decimal.OfNatParses | services/adapter/modbus/mapping.py:43-52 | Decimal digits of a natural number are read back as that number. |
| Decimal.DigitsArePositional | services/adapter/modbus/mapping.py:43 | The k-th digit from the right is that of the k-th power of ten, and there is no leading zero. |
| Decimal.PaddedIntParses | services/adapter/modbus/mapping.py:50-53 | Blanks around a number and a plus sign before it do not matter. |
| Decimal.OfIntParses | services/adapter/bacnet/mapping.py:48-58 | `int(str(n))` is n for every integer, and its text never contains the separator. |
| Decimal.OfIntIsInjective | services/adapter/modbus/mapping.py:43 | Different integers have different texts. |
| Decimal.SplitFirst | services/adapter/modbus/mapping.py:48 | Splitting off a separator-free first part leaves the split of the rest. |
| Decimal.SplitLast | services/adapter/modbus/mapping.py:48 | A separator-free text is its own only part. |
| Decimal.PartsHaveNoSeparator | services/adapter/modbus/mapping.py:48 | No part of a split contains the separator. |
| AddressMapping.AcceptedModbusIsValid | services/adapter/modbus/mapping.py:16-39 | Every accepted configuration has a listed function code, type and byte order; a type name never contains the separator. |
| AddressMapping.AcceptedModbusCarries | services/adapter/modbus/mapping.py:16-39 | An accepted mapping carries each field of its configuration, or its default. |
| AddressMapping.ModbusConfigIsParsed | services/adapter/modbus/mapping.py:16-39 | A mapping written as a configuration is parsed as itself if code, type and byte order are known ones, and rejected otherwise. |
| AddressMapping.ModbusDefaults | services/adapter/modbus/mapping.py:26-38 | A configuration with a known function code and an address is accepted with the defaults for all else. |
| AddressMapping.FloatsAreTruncated | services/adapter/modbus/mapping.py:33 | `int` of a float drops the fraction towards zero. |
| AddressMapping.ModbusTypeDefault | services/adapter/modbus/mapping.py:49-54 | An address without a type is read as one of unsigned 16-bit registers. |
| AddressMapping.ModbusReadsBack | services/adapter/modbus/mapping.py:42-57 | For any mapping, the built address reads back as function code, address, count and type if and only if the type has no separator in it. |
| AddressMapping.ModbusRoundTrip | services/adapter/modbus/mapping.py:16-57 | For every accepted configuration the address reads back as its four parts. |
| AddressMapping.ModbusAddressesAreDistinct | services/adapter/modbus/mapping.py:42-43 | Accepted mappings have equal addresses exactly when the four parts agree. |
| AddressMapping.BacnetReadsBack | services/adapter/bacnet/mapping.py:47-62 | For any mapping, the built address reads back as object type, instance and property if and only if both names are free of the separator. |
| AddressMapping.AcceptedBacnetCarries | services/adapter/bacnet/mapping.py:23-44 | An accepted mapping carries each field of its configuration, or its default. |
| AddressMapping.BacnetConfigIsParsed | services/adapter/bacnet/mapping.py:23-44 | A mapping written as a configuration is parsed as itself if object type and property are known ones, and rejected otherwise. |
| AddressMapping.BacnetRoundTrip | services/adapter/bacnet/mapping.py:23-62 | For every accepted configuration the address reads back as its three parts. |
| AddressMapping.BacnetAddressesAreDistinct | services/adapter/bacnet/mapping.py:47-48 | Accepted mappings have equal addresses exactly when the three parts agree. |
| AddressMapping.SchemesAreDistinct | services/adapter/modbus/mapping.py:46-57 | No text is read as an address of both schemes. |
| EventStream.InterpretLine | services/ai/agent/streaming.py:20-39 | The client side, by section 9.2.6 of the HTML Living Standard: the first LF-ended line is processed, then the rest. |
| EventStream.FieldLine | services/ai/agent/streaming.py:29-36 | A line "name: value" is read as that field with exactly that value. |
| EventStream.IdsAreClean | services/ai/agent/streaming.py:28-29 | Whatever the text, no event read has an identifier with a line end or NUL. |
| SseGenerator.LinesAreUnbroken | services/ai/agent/streaming.py:35 | No line that `splitlines` delivers contains a line break of any kind. |
| SseGenerator.DoneIsPrintable | services/ai/agent/streaming.py:33-34 | The JSON of the closing event is printable ASCII, so a single data line, for every stream identifier. |
| SseGenerator.DoneIsJson | services/ai/agent/streaming.py:99-103 | The data of the closing event, read as JSON, is the stream identifier and the status "complete". |
| SseGenerator.ErrorIsJson | services/ai/agent/streaming.py:93-97 | The data of the error event, read as JSON, is the message and the stream identifier, for all texts. |
| SseGenerator.ErrorIsPrintable | services/ai/agent/streaming.py:33-34 | The JSON of the error event is printable ASCII, so a single data line, for every message. |
| SseGenerator.AppendData | services/ai/agent/streaming.py:35-36 | One data line per line of the data, after the head lines. |
| SseGenerator.SseEvent | services/ai/agent/streaming.py:20-39 | The text of an event: optional id and retry, event, data lines, closing blank line, joined with LF. |
| SseGenerator.SSEStreamGenerator.constructor | services/ai/agent/streaming.py:58-65 | A new stream has counted no event. |
| SseGenerator.SSEStreamGenerator.NextId | services/ai/agent/streaming.py:67-69 | The counter advances by one; the identifier is the stream's, a dash and a text that reads as the counter. |
| SseGenerator.SSEStreamGenerator.YieldTokens | services/ai/agent/streaming.py:83-90 | One token text per chunk, numbered consecutively. |
| SseGenerator.SSEStreamGenerator.YieldError | services/ai/agent/streaming.py:91-97 | The next identifier, with the exception's message and the stream identifier as JSON. |
| SseGenerator.SSEStreamGenerator.YieldDone | services/ai/agent/streaming.py:98-103 | The next identifier, with the closing JSON. |
| SseGenerator.SSEStreamGenerator.YieldEnd | services/ai/agent/streaming.py:91-103 | After a raise an error text and then the done text, otherwise the done text alone, numbered onward. |
| SseGenerator.SSEStreamGenerator.Generate | services/ai/agent/streaming.py:71-103 | Token texts for all chunks, an error text if the iterator raised, and always a done text, numbered consecutively. |
| SseGenerator.FieldsRead | services/ai/agent/streaming.py:27-36 | Reading the lines of an event fills the client's buffers with exactly its fields. |
| SseGenerator.BlankLineDispatches | services/ai/agent/streaming.py:37-38 | The blank line dispatches one event with the rejoined data, or none when the data is empty. |
| SseGenerator.EventRead | services/ai/agent/streaming.py:20-39 | One printed event followed by anything is read as itself followed by what the rest gives. |
| JsonDumps.ObjectIsPrintable | services/ai/agent/streaming.py:33-34 | The JSON of a dictionary of strings is printable ASCII, so it has no line break. |
| JsonDumps.StringIsRead | services/ai/agent/streaming.py:33-34 | The JSON of any text is read back as that text by section 7 of RFC 8259, surrogate pairs included, whatever follows. |
| JsonDumps.ObjectIsRead | services/ai/agent/streaming.py:33-34 | The JSON of any non-empty dictionary of strings is read back as its members. |
| SseRoundTrip.RejoinedIsSurvivor | services/ai/agent/streaming.py:35-36 | A non-empty chunk is unchanged by splitting and rejoining if and only if its only line break is LF and it does not end in one. |
| SseRoundTrip.TokensAreRead | services/ai/agent/streaming.py:84-90 | What the tokens of any chunks are read as, in front of any rest. |
| SseRoundTrip.StreamIsRead | services/ai/agent/streaming.py:71-103 | What the whole stream of any chunks is read as: empty chunks lost, line breaks turned into LF. |
| SseRoundTrip.RoundTrip | services/ai/agent/streaming.py:71-103 | The stream is read back as exactly one token per chunk with the same data and consecutive ids, then the closing events, if and only if the stream identifier has no line end or NUL and every chunk is non-empty, breaks lines only with LF and does not end in LF. |
| SseRoundTrip.StreamIsNumbered | services/ai/agent/streaming.py:67-103 | Of a clean stream and surviving chunks a client reads, event by event: the chunks as tokens, for a failure an error whose JSON carries the message, then the closing event; the k-th identifier is the stream's with a number that reads as k beyond the counter, so all differ. |
| SseRoundTrip.RetryIsRemembered | services/ai/agent/streaming.py:85-90 | After the tokens the client's reconnection time is the one they asked for. |
| SseRoundTrip.UncleanIsNotMeant | services/ai/agent/streaming.py:67-69 | With a line end or NUL in the stream identifier no text at all is read back as meant. |
| ShortTermMemory.MemoryManager.constructor | services/ai/agent/memory.py:58-67 | A new window is empty. |
| ShortTermMemory.MemoryManager.AddToShortTerm | services/ai/agent/memory.py:75-82 | After every addition the window is the longest suffix of everything added since the last clear that fits the budget, or the last message alone: within the budget unless it is one message, and beyond it with one message more. |
| ShortTermMemory.MemoryManager.TrimShortTerm | services/ai/agent/memory.py:96-103 | Popping from the front leaves the longest fitting suffix of what was there. |
| ShortTermMemory.MemoryManager.ClearShortTerm | services/ai/agent/memory.py:88-90 | Clearing starts a new history. |
| ShortTermMemory.TotalTokens | services/ai/agent/memory.py:92-100 | The loop's total is the sum of a quarter of each length, rounded down per message. |
| ShortTermMemory.TokenEstimate | services/ai/agent/memory.py:92-94 | A quarter of the length, rounded down. |
| ShortTermMemory.TrimmingIsIncremental | services/ai/agent/memory.py:75-103 | Trimming the trimmed window plus one message gives the window of the whole history. |
| ShortTermMemory.WindowIsUnique | services/ai/agent/memory.py:96-103 | The history determines the window, and the fitting suffixes are exactly the shorter ones. |
| ShortTermMemory.LongerHasMoreTokens | services/ai/agent/memory.py:99-103 | A longer suffix never has fewer tokens. |
| CostTracker.StoredLength | services/ai/model/cost.py:129-131 | At most 10000 records, all of them up to 10000, and at least 5000 once that many were tracked. |
| CostTracker.StoringIsIncremental | services/ai/model/cost.py:125-131 | Appending to the bounded store and cutting it gives the bounded store of the longer log. |
| CostTracker.Tracker.Track | services/ai/model/cost.py:99-137 | However calls are interleaved across tenants, each tenant's records stay the bounded store of its own log, and only this tenant's log grows. |
| CostTracker.Tracker.GetTenantHistory | services/ai/model/cost.py:182-196 | The last `limit` matching stored records, with Python's meaning of zero and negative limits; only records of the provider and model asked for, and all of those for a limit of 10000 or more. |
| CostTracker.MatchingAreWanted | services/ai/model/cost.py:190-195 | The matching records are those of the provider and model asked for, once each; an empty name asks for nothing. |
| CostTracker.LastPyIsSuffix | services/ai/model/cost.py:196 | The slice is a suffix: of `limit` records where there are so many; for other limits of all but the first ones. |
| CostTracker.Tracker.GetDailyTokens | services/ai/model/cost.py:162-170 | The token sum of the stored records of the day. |
| CostTracker.TrackingAddsTokens | services/ai/model/cost.py:125-170 | Tracking a record raises the day's total by its total tokens if it is of that day, of the log always and of the stored records until one is dropped. |
| CostTracker.TrackingAddsToMonth | services/ai/model/cost.py:172-180 | The same for months. |
| CostTracker.Tracker.GetMonthlyTokens | services/ai/model/cost.py:172-180 | The token sum of the stored records of the month. |
| CostTracker.Tracker.ResetRecords | services/ai/model/cost.py:321-327 | One tenant's log, or all logs, start anew. |
| CostTracker.LastOfSuffix | services/ai/model/cost.py:196 | When the tail of a cut-off list is the tail of the whole list, exactly. |
| CostTracker.HistoryAgrees | services/ai/model/cost.py:182-196 | A history query answers as on the unbounded log if and only if no matching record was dropped, or the limit is positive and that many matches are stored, or a negative limit skips everything. |
| CostTracker.UnfilteredHistoryAgrees | services/ai/model/cost.py:182-196 | An unfiltered query for 1 to 5000 records always answers as on the unbounded log. |
| CostTracker.TotalsMissOnlyDropped | services/ai/model/cost.py:162-180 | Token totals miss exactly the dropped records; nothing is dropped exactly until more than 10000 were tracked. |
| CircuitBreaker.Breaker.constructor | services/adapter/runtime.py:21-27 | A new breaker has recorded nothing and is closed. |
| CircuitBreaker.Breaker.RecordSuccess | services/adapter/runtime.py:37-42 | State and counter stay those that the whole history of outcomes determines. |
| CircuitBreaker.Breaker.RecordFailure | services/adapter/runtime.py:44-50 | State, counter and failure time stay those that the whole history determines. |
| CircuitBreaker.Breaker.AllowRequest | services/adapter/runtime.py:52-58 | Refused exactly when the failures since the last success reach the limit and the last is younger than the timeout. |
| CircuitBreaker.AdapterRuntime.constructor | services/adapter/runtime.py:64-76 | A new runtime has a new breaker with the given limits. |
| CircuitBreaker.AdapterRuntime.ConnectWithRetry | services/adapter/runtime.py:78-101 | Connects exactly when some allowed attempt succeeds, records each attempt made up to the first success, and sleeps with doubling delays between attempts, base * (2^k - 1) for k sleeps in total. |
| CircuitBreaker.FailedConnectsSleep | services/adapter/runtime.py:85-101 | n >= 1 attempts that all fail sleep base * (2^(n-1) - 1) in total. |
| CircuitBreaker.SuccessAfterSleeps | services/adapter/runtime.py:86-99 | A success after k failed attempts is preceded by k sleeps. |
| CircuitBreaker.DelaysDouble | services/adapter/runtime.py:96 | The first sleep takes the base delay and each further one twice the one before. |
| CircuitBreaker.AdapterRuntime.CheckHealth | services/adapter/runtime.py:110-124 | While refused nothing is probed or recorded; otherwise the probe decides and exactly one outcome is recorded, an exception counting as a failure. |
| CircuitBreaker.BackoffTotal | services/adapter/runtime.py:96-99 | n sleeps take base * (2^n - 1) in total. |
| CircuitBreaker.ConsecutiveAppend | services/adapter/runtime.py:44-46 | Each further failure adds one to the failures since the last success. |
| CircuitBreaker.RefusalAfterFailures | services/adapter/runtime.py:37-58 | Whatever came before, a success admits every request, and a following run of failures is refused exactly when it reaches the limit and its last one is younger than the timeout. |
| CircuitBreaker.FailuresFirst | services/adapter/runtime.py:86-99 | The number of failed attempts before the first success. |
| Activation.TwinEntityRegistry.Register | services/twin/registry.py:38-68 | Refused exactly when the tenant already has the id; otherwise exactly this entity is added. |
| Activation.TwinEntityRegistry.Get | services/twin/registry.py:70-93 | The entity stored for this tenant and id, if any; the second tenant check never changes the answer. |
| Activation.TwinEntityRegistry.Contains | services/twin/registry.py:129-139 | Whether the tenant has the id. |
| Activation.TwinEntityRegistry.Remove | services/twin/registry.py:95-110 | Exactly this entity goes, and the answer tells whether it was there. |
| Activation.TwinEntityRegistry.Clear | services/twin/registry.py:152-164 | Exactly the tenant's entities go; the count is theirs. |
| Activation.TwinActivationService.EnsureLog | services/activation/services.py:40-53 | The existing log, or a new one in state created. |
| Activation.TwinActivationService.Activate | services/activation/services.py:55-108 | Succeeds exactly for a known, unregistered entity that is created or bound, with errors in the source's order; then its log is active with its binding kept and the registered object carries its ids, name and definition code; a refusal adds at most a log in state created. |
| Activation.TwinActivationService.Deactivate | services/activation/services.py:110-147 | Succeeds exactly for a known entity whose log is active, with errors in the source's order; then that log is inactive with its binding kept and the entity is not registered; nothing else changes, and a refusal changes nothing. |
| Activation.TwinActivationService.BindDevice | services/activation/services.py:159-180 | Succeeds exactly from created and bound, also for unknown entities; then the log is bound with this binding; nothing else changes. |
| Activation.TwinActivationService.GetStatus | services/activation/services.py:149-157 | The log, created on demand. |
| Activation.StepKeepsSync | services/activation/services.py:55-180 | Every call, failed or not, keeps "registered exactly when active". |
| Activation.StepMovesForward | services/activation/activation.py:5-17 | Every state change is in `VALID_TRANSITIONS`, never to error and never back. |
| Activation.AgeNeverFalls | services/activation/services.py:55-180 | Over any stretch of a run an entity's state never goes back. |
| Activation.NoErrorState | services/activation/services.py:28-30 | The error state of the documented machine is never reached. |
| Activation.RunsStayInSync | services/activation/services.py:55-180 | In every run an entity is registered exactly when its log is active, no log is in error, and inactive is never left although the table allows it. |
| Activation.ActivatedAtMostOnce | services/activation/services.py:79-102 | In every run each entity is activated at most once. |
| Activation.ActivationSucceedsExactly | services/activation/services.py:68-98 | In every reachable world activation succeeds exactly for a known entity that is created or bound; the registry never reports a duplicate. |
| Activation.ActivationDoes | services/activation/services.py:55-108 | The exact success condition of activation in any world, its effect, and that nothing else changes. |
| Activation.DeactivationDoes | services/activation/services.py:110-147 | The same for deactivation, with its errors. |
| Activation.BindingDoes | services/activation/services.py:159-180 | The same for binding. |
| Activation.DeactivationSucceedsExactly | services/activation/services.py:110-147 | In every run deactivation succeeds exactly for a known entity in the registry, and takes it out. |
| Activation.MovesAreExactly | services/activation/activation.py:5-17 | The service makes exactly four of the ten moves of the table: created to bound and active, bound to active, active to inactive. |
| Provisioning.GeneratePlan | services/provisioning/planner.py:37-116 | An existing plan is returned if completed and refused otherwise; missing instance and template are errors; otherwise a ready plan with n new entity items that name the nodes by type, safe name and UUID prefix, then one new relationship item per pair that joins their external ids, n(n+1)/2 in all. |
| Provisioning.GeneratedDescribe | services/provisioning/planner.py:75-121 | The items themselves: entity item i names node i, each pair item joins the external ids of its two entity items; all pending and without twins. |
| Provisioning.ExternalIdNames | services/provisioning/planner.py:118-121 | The node type, the name with underscores for blanks and slashes, and the first eight characters of the UUID, joined by underscores. |
| Provisioning.DifferentPrefixesDiffer | services/provisioning/planner.py:118-121 | Nodes whose UUIDs start differently get different external ids. |
| Provisioning.BuildItems | services/provisioning/planner.py:72-104 | Entity items in node order, then the relationship items of all pairs. |
| Provisioning.AppendRow | services/provisioning/planner.py:91-104 | The inner loop appends exactly the relationship items of one node with all later ones, in order. |
| Provisioning.AppendRelationships | services/provisioning/planner.py:89-104 | The nested loops append exactly the relationship items of all pairs, in row order. |
| Provisioning.PairsBeforeListed | services/provisioning/planner.py:90-91 | The pairs visited before a point of the loops, each once, and their number. |
| Provisioning.AllPairsListed | services/provisioning/planner.py:90-91 | Each unordered pair is visited exactly once, n(n-1)/2 in all. |
| Provisioning.OneItemPerPair | services/provisioning/planner.py:89-104 | Each unordered pair of nodes has exactly one relationship item. |
| ProvisioningExecutor.Executor.CreateEntity | services/provisioning/executor.py:123-148 | Raises, changing nothing, when several entities have the external id; an entity known by tenant and external id is reused; otherwise exactly one is added. |
| ProvisioningExecutor.Executor.CreateRelationship | services/provisioning/executor.py:150-178 | Nothing without both twins or when already related; raises when several relationships join the pair; otherwise exactly one is added. |
| ProvisioningExecutor.Executor.ProcessItem | services/provisioning/executor.py:75-97 | Status, counters and stores after one item: unknown actions count as completed and as failed, "skipped" becomes "completed", and an item for which the repositories raise leaves the stores alone. |
| ProvisioningExecutor.Executor.ProcessItems | services/provisioning/executor.py:70-97 | After the loop every item has its final status, the store has gained exactly what the items make, and completed + failed is the item count plus the number of unknown actions, from any stores. |
| ProvisioningExecutor.Executor.Execute | services/provisioning/executor.py:42-121 | Missing and non-ready plans are refused unchanged; otherwise the plan is "completed" exactly when every item is "completed", execution and plan agree on status and counts, and unique external ids stay unique. |
| ProvisioningExecutor.ExtensionKeepsUnique | services/provisioning/executor.py:127-131 | Executing items never gives an external id a second entity, so unique ids stay unique and the same look-ups are ambiguous before and after. |
| ProvisioningExecutor.RelatedAsAtStart | services/provisioning/executor.py:156-163 | Executing items never relates a pair twice, so the same pairs are related several times before and after. |
| ProvisioningExecutor.UniqueStoresRaiseNothing | services/provisioning/executor.py:127-163 | With unique external ids and pairs the look-ups themselves never raise. |
| ProvisioningExecutor.ProcessedOneMore | services/provisioning/executor.py:75-97 | One more item keeps the description of the store, whatever the item and whether it fails. |
| ProvisioningExecutor.StoredExactly | services/provisioning/executor.py:123-148 | Afterwards the known external ids of the tenant are those known before and those of the entity items that did not fail. |
| ProvisioningExecutor.RepeatingCreatesNothing | services/provisioning/executor.py:127-131 | Handling the same items again creates entities only for items that failed before; if none did, the store does not change. |
| ProvisioningExecutor.NoneFailing | services/provisioning/executor.py:105-110 | The failure counter is zero exactly when every item is completed. |
| ProvisioningExecutor.CountZero | services/provisioning/executor.py:87-97 | The failure counter is zero exactly when no item fails. |
| ProvisioningExecutor.GeneratedItemsAreKnown | services/provisioning/planner.py:84-99 | A generated plan has no unknown action, in whatever order its items are listed, so on it completed + failed is the item count. |
| ProvisioningExecutor.GeneratedPlanRuns | services/provisioning/executor.py:70-112 | Executing a generated plan of n nodes in any order, whatever raises: completed + failed is n(n+1)/2, no relationship is created and none of those items fails, and entities are made for exactly the external ids of the nodes whose item does not raise. |
| ProvisioningExecutor.OneEntityPerNode | services/provisioning/executor.py:70-148 | Executing a generated plan for nodes with different UUID prefixes on a store without its external ids, in any order and with nothing raising: exactly n new entities, one per node, with ids that name the nodes, given to the items as their different twins. |
| ProvisioningExecutor.StatusesAre | services/provisioning/executor.py:77-97 | An item ends as failed exactly if its action is unknown or the repositories raise while an entity, or a relationship of two twins, is made; otherwise as completed. |
| ProvisioningExecutor.CountersCount | services/provisioning/executor.py:87-97 | The failure counter is the number of failed items; the surplus of both counters is the number of unknown actions. |
| ProvisioningExecutor.EntityIsOfItem | services/provisioning/executor.py:134-143 | The entity made for an item has its external id and template and is named by the id in title case. |
| ProvisioningExecutor.NewRelationshipsAreAsked | services/provisioning/executor.py:165-171 | Every relationship created joins the twins of some item under the type it asks for, or "contains". |
| ProvisioningExecutor.UniqueExactly | services/provisioning/executor.py:128-160 | Look-ups find several rows exactly where external ids or related pairs are not unique. |
| ProvisioningExecutor.RelationshipsStayUnique | services/provisioning/executor.py:150-178 | At most one relationship per tenant and ordered pair of twins; earlier ones stay; one for every relationship item with both twins that does not fail. |
| ProvisioningExecutor.GeneratedItemsRelateNothing | services/provisioning/planner.py:100-101 | Items without twins, as the planner leaves them, create no relationship and end as completed. |

## Left out

Not modelled:

- HTTP routes, request and response schemas, database models, migrations, authentication, sessions and log output.
- Asynchronous scheduling, locks and wall clocks: a lock-guarded body is one step, and times are parameters.
- Database flush, add, refresh and commit as separate steps that can fail; whether a repository raises is a parameter of the provisioning executor, and a raising creation stores nothing. The outer exception handler of `execute` is therefore not modelled.
- UUID generation: a new id is a parameter or any unused id.
- The language model behind the planner's decomposition: the sub-tasks are a parameter.
- LwwRegister.Register.Update: the default stamp taken from the wall clock is a parameter.
- OrSet.ORSet.Merge: requires that no tag is empty, which OrSet.RunsStayExact shows of every run.
- Ontology.OntologyService.CreateConcept: timestamps and versions are left out, and lower-casing covers ASCII only; soft deletion of concepts is left out, so every stored concept is live.
- OntologyTree.FullTreeListsEachOnce: `_build_node` reads the result of an unawaited query; the model takes the rows that query selects. The database's collation of names is a parameter.
- Entity types, capabilities and property bindings of the ontology: create and update operations without a hierarchy.
- AddressMapping.ModbusRoundTrip: `scale`, `offset` and value conversion in floating point, digits outside ASCII, the length limit of `int` on text, and configurations that are not dictionaries are left out.
- SseGenerator.SSEStreamGenerator.Generate: chunks are text; `generate_with_metadata` and the event types it does not send are left out. Iterators that are abandoned half-way are left out too.
- EventStream.InterpretLine: the stream is decoded text; byte decoding beyond a leading byte-order mark, and what a client does with the reconnection time, are left out.
- Long-term and working memory.
- Pricing, rounded cost totals, alert thresholds and the summary over all tenants.
- The other methods of the sync engine (`download_commands`, `connect`, `disconnect`): they only move or read lists and flags.
- Activation.RunsStayInSync: a run is one process; a restart, which empties the registry but not the logs, is left out, as are direct calls of the registry beside the service.
- Timestamps, error messages and metadata of activation logs, plans, items and executions.
- Protocol clients and adapters, model gateways, agent loops and web-socket sessions: their outcomes are decided outside the repository.

Where the code and its documentation differ, the model follows the code:

- The clock's documentation promises a total order; stamps with equal counters tie (SyncClock.DistinctStampsCanTie), and last-writer-wins then need not converge (LwwRegister.TiedWritesDiverge, LwwRegister.ConvergenceIsAgreement).
- The set is called observed-remove, but its merge keeps no removals (OrSet.RemovalIsForgotten, OrSet.MergeUndoesRemoval), and removing tags of another element spoils the tag index (OrSet.RemoveKeepsExact, OrSet.ForeignTagSpoilsIndex).
- Task ids are documented as unique but not checked; a repeated id that drops a known dependency lets the sort accept a cycle (TaskPlanner.RedeclarationHidesCycle, TaskPlanner.LinkedExactly).
- `create_concept` passes the parent as both arguments of the cycle check, so every creation with an existing parent is refused as circular; links arise only from `update_concept`.
- The transition table allows inactive to active and several moves from and to error; the service takes none of them (Activation.RunsStayInSync).
- Counting an item of unknown action as completed and as failed makes the two counters add up to more than the item count (ProvisioningExecutor.Executor.Execute); a relationship item marked "skipped" is then overwritten with "completed"; and the twins that the planner leaves to the executor are never resolved (ProvisioningExecutor.GeneratedItemsRelateNothing).
- The limit of 100 rows per list query can make a relationship invisible from one of its ends (TwinGraph.RowLimitBreaksSymmetry); TwinGraph.HopsGoBackExactly and TwinGraph.DistanceIsSymmetric say exactly when it does not.
- External ids and related pairs are meant to be unique but no constraint of the database enforces it; the executor fails items that meet duplicates and never adds any (ProvisioningExecutor.ExtensionKeepsUnique).
- Chunks that are empty, end in a line break, or use a line break other than LF do not reach a client unchanged (SseRoundTrip.RoundTrip).
