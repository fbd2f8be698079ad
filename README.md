# A verified model of python-relion's in-memory core

The model covers the bookkeeping that sits under python-relion's pipeline tools. That means the node and graph engine that runs processing steps in dependency order, the layered environment those steps read their settings from, the in-memory tables that collect results for the database, and the string/list helpers of the RELION job parsers and of the `cryolo_relion_it` driver script. Every Python object that changes in place is a Dafny `class`, and every pure computation is a `function`. Properties are stated as contracts and lemmas. Files, subprocesses, threads, clocks and floating point are outside the model (see "Left out").

- `values.dfy` (`Values`): Python values (`None`, bool, int, str, list, dict), the exceptions the core raises, `Result`/`Option`, and Python's `str.split`/`str.join`/`str.split()`/negative indexing, with their round trips.
- `protonode.dfy` (`ProtoNodes`): every `ProtoNode` lives in one `Arena`, and a node is its index. The arena holds each node's name, successor list `_out`, predecessor list `_in`, `_completed` list, link traffic, environment, delayed traffic, `_propagate` map and attributes. `link_to`, `unlink_from`, `__call__`, `__eq__` (structural, depth-bounded), `__rshift__` and `_is_child`/`__lt__` are arena operations. `Valid` says that every edge and completion list names only nodes of the arena and that no successor is listed twice. It does not keep `_in` in step with `_out`: as in the source, `unlink_from` prunes only `_out`, so `_in` can keep stale entries.
- `protograph.dfy` (`ProtoGraphs`): the sequential `ProtoGraph`. It covers construction, indexing, `add_node`, `extend`, `index`, `__eq__`, `find_origins`, `merge`, and the recursive `_follow` traversal with its `_called_nodes`, `_traversed`, `_call_returns` and delayed traffic. Its invariant `Barrier` says a node is called only when every predecessor has completed. `ProtoGraph.Valid` also keeps `_called_nodes` free of duplicates, so each node is called at most once. As in the source, iterating "the graph" walks the graph node's own successors, not its member list.
- `environment.py` → `environment.dfy` (`Env`): `Propagate`, `Escalate` and `Environment`. Lookups go base, then temp, then released propagate, then released escalate, and a key found nowhere gives None. `__setitem__`, `update`, `step` and `set_base` keep their own error cases. `temp` is the iterator entry last stepped to (`Aligned`), so an element-wise `update` reaches it, as the in-place `dict.update` does in the source.
- `graph.dfy` (`Graphs`): `Graph` adds start/end sentinel nodes. It covers origin discovery, `add_node` (with its sentinel relinking), `index`, `node_explore`, `merge`/`_top_and_tail`, and the sequential fan-in bookkeeping of `_follow`. There, the visit the thread pool would run is a FIFO queue, and a successor is released by the last edge recorded into it. `func` resets every node's completion list.
- `modeltables.dfy` (`Tables`): `ProcessID` and `Table`. `add_row` is an upsert covering composite-unique matching, counter columns, append columns and the global id counter. It also covers `get_row_index`, `get_row_by_primary_key`, the `insert` dispatch with its `_last_update` stamps, and `construct_message`. The six table classes are fixed schemas.
- `dbnode.dfy` (`DBNodes`): `DBNode`, with its per-table unsent and sent queues, the foreign-key `_do_check`, `insert`, `message` and `__call__`.
- `dbgraph.dfy` (`DBGraphs`): `DBGraph`, covering construction stamps, `__call__` and `update_times`.
- `processnode.dfy` (`ProcessNodes`): `ProcessNode`, whose `func` collects results once per end timestamp, plus `__eq__` and `change_name`. The printed form of a `PurePosixPath` (root, components without empty ones or `.`, no trailing slash) is modelled, because `__eq__` compares it with `str(other)`.
- `clusternode.dfy` (`ClusterNodes`): `ClusterNode`, whose `func` zips and flattens.
- `class2d.dfy` (`Class2Ds`): the helpers of the `Class2D` parser. These are class counting, `_class_checker`, the latest-iteration file names, `top_twenty`, `db_unpack`, and the batch-number and picker-job string extraction. `Class3D` uses the same helpers with the same code.
- `class3d.dfy` (`Class3Ds`): the parts of the `Class3D` parser that differ. These are the class token of the initial model's file name, the count of its particles, and the 3D `db_unpack`.
- `motioncorrection.dfy` (`MotionCorrs`): the `MotionCorr` job-directory cache, and `construct_dict`.
- `cryolo.dfy` (`CryoloRelionIt`): functions from `cryolo_relion_it.py`:
  - `load_star`, a line-driven state machine over a list of lines;
  - `getJobName`;
  - the done-file and option strings of `addJob` and `RunJobs`;
  - even box sizes;
  - `RelionItOptions.update_from`.

Recursion that Python bounds by its recursion limit gets a `fuel` parameter here, and running out of fuel is a `RecursionError`.

## Model

| member | source | states |
|---|---|---|
| Values.PyIndex | src/relion/protonode/protograph.py:38-41 | Python list indexing: an index in `-n..n-1` names a position (negative counted from the end); anything else is an IndexError |
| Values.JoinSplit | src/relion/cryolo_relion_it/cryolo_relion_it.py:1956-1958 | joining the pieces of a split with the same separator gives the string back |
| Values.SplitJoin | src/relion/cryolo_relion_it/cryolo_relion_it.py:1956-1958 | splitting a join of separator-free pieces gives the pieces back |
| Values.Tokens | src/relion/cryolo_relion_it/cryolo_relion_it.py:1937 | `str.split()`: every word is non-empty and free of whitespace, whitespace being exactly the characters Python's `str.isspace()` accepts |
| Values.TokensCover | src/relion/cryolo_relion_it/cryolo_relion_it.py:1937 | the words of `str.split()`, written one after the other, are exactly the line's non-whitespace characters, in order |
| ProtoNodes.Arena.NewNode | src/relion/protonode/protonode.py:7-18 | a new node gets the next index, its name and attributes, and empty edge, completion, traffic, environment, delayed-traffic and propagate entries; the existing nodes are unchanged |
| ProtoNodes.Arena.LinkedTraffic | src/relion/protonode/protonode.py:67-73 | the link-traffic record after `link_to`: `result_as_traffic` stores None under the successor's key and overrides the traffic; non-empty traffic is stored under that key; otherwise the record is unchanged |
| ProtoNodes.Arena.LinkTo | src/relion/protonode/protonode.py:63-73 | linking a successor already present changes nothing; otherwise it is appended to `_out`, the node to the successor's `_in`, the traffic is recorded, and it is copied into the successor's environment unless blocked; edge lists stay consistent |
| ProtoNodes.Arena.RShift | src/relion/protonode/protonode.py:48-50 | `>>` links when the right operand is a node, as `link_to` does, and does nothing otherwise |
| ProtoNodes.Arena.UnlinkFrom | src/relion/protonode/protonode.py:75-77 | removes the successor from `_out` when present, else nothing; the successor's `_in` is never touched |
| ProtoNodes.Arena.Call | src/relion/protonode/protonode.py:52-54 | every successor gets the node appended to its `_completed`; no other node and no other field changes |
| ProtoNodes.Arena.RemoveIn | src/relion/node/graph.py:221-225 | `n._in.remove(x)`: the first occurrence goes; a missing one is a ValueError and changes nothing |
| ProtoNodes.Arena.ClearCompleted | src/relion/node/graph.py:91-93 | the node's `_completed` becomes empty and nothing else changes |
| ProtoNodes.Arena.ChangeName | src/relion/protonode/protonode.py:60-61 | only the node's name changes |
| ProtoNodes.Arena.NodeEq | src/relion/protonode/protonode.py:20-27 | structural `==`: a True answer needs equal names and equal successor counts, and a name or count mismatch gives False; the only error is a RecursionError, which depth 0 always gives |
| ProtoNodes.Arena.Contained | src/relion/protonode/protonode.py:23-26 | `x in lst` under structural `==`: the same node in the list gives True once the search succeeds, False means `x` itself is not in the list, and the only error is a RecursionError |
| ProtoNodes.Arena.AllContained | src/relion/protonode/protonode.py:23-26 | the `all(...)` of `__eq__`: True means every given node is structurally in the other's list |
| ProtoNodes.Arena.ContainedUnique | src/relion/protonode/protonode.py:20-27 | with unique node names, structural membership is membership of the same node |
| ProtoNodes.Arena.AllContainedUnique | src/relion/protonode/protonode.py:20-27 | with unique names, the structural inclusion of successor lists is inclusion of the same nodes |
| ProtoNodes.Arena.NodeEqUnique | src/relion/protonode/protonode.py:20-27 | with unique names, two nodes are structurally equal exactly when they are the same node |
| ProtoNodes.Arena.ReachBounded | src/relion/protonode/protonode.py:79-84 | a walk bound: when no walk of a given length exists, a node reachable within that length is already reachable within one less |
| ProtoNodes.Arena.IsChildChecker | src/relion/protonode/protonode.py:79-84 | succeeds exactly when no walk as long as the depth leaves the node, else a RecursionError; on success every entry is True, and a True is present exactly when the incoming checks were non-empty or the candidate is reachable within one less than the depth |
| ProtoNodes.Arena.IsChild | src/relion/protonode/protonode.py:43-46 | `_is_child`/`__lt__`: succeeds exactly when no walk as long as the depth leaves the node (a cycle below it exhausts any depth, as Python's recursion limit does), else a RecursionError; a successful answer is True exactly when the candidate is the node itself or reachable through `_out` (by identity) |
| ProtoNodes.BarrierExtend | src/relion/protonode/protograph.py:140-143 | the "called only when all predecessors completed" invariant survives marking a ready node as called |
| ProtoNodes.ReadyAfterGrowth | src/relion/protonode/protograph.py:140-143 | the "called only when all predecessors completed" barrier for the called nodes survives completion lists that only grow |
| ProtoNodes.Arena.NamesOf | src/relion/protonode/protograph.py:116-117 | the names of the given nodes, in order, one per node |
| ProtoGraphs.MergeRows | src/relion/protonode/protograph.py:208-210 | every delayed row is updated with the dict traffic, later keys winning; the row count is kept |
| ProtoGraphs.Park | src/relion/protonode/protograph.py:206-216 | parked traffic: dict traffic merges into a dict or into every row of a list; list traffic is appended to a list or becomes the parked list |
| ProtoGraphs.ParkDictTwice | src/relion/protonode/protograph.py:206-212 | parking two dicts in turn is parking their union, the later one winning |
| ProtoGraphs.ParkRowsTwice | src/relion/protonode/protograph.py:207-210 | merging into the rows twice is merging the union once |
| ProtoGraphs.ParkListTwice | src/relion/protonode/protograph.py:213-216 | parked list traffic accumulates in arrival order |
| ProtoGraphs.MarkedOnce | src/relion/protonode/protonode.py:52-54 | one `__call__` adds one completion entry to each successor |
| ProtoGraphs.MarkedTwice | src/relion/protonode/protonode.py:52-54 | completion entries from successive calls add up |
| ProtoGraphs.Outside | src/relion/protonode/protograph.py:112 | a candidate is kept exactly when it is in the given list and not among the children; the list never grows |
| ProtoGraphs.ProtoGraph.constructor | src/relion/protonode/protograph.py:10-21 | the node list is kept in order; the origins are the first node, or none for an empty list; no calls or traversals recorded |
| ProtoGraphs.ProtoGraph.GetItem | src/relion/protonode/protograph.py:38-41 | a non-integer, non-boolean index is a ValueError; an integer indexes the node list as Python does, negative from the end; a boolean is the index 0 or 1; every out-of-range index is an IndexError |
| ProtoGraphs.ProtoGraph.AddNode | src/relion/protonode/protograph.py:85-93 | a non-node is a ValueError and changes nothing; a node is appended, duplicates included, and nothing else changes |
| ProtoGraphs.ProtoGraph.Extend | src/relion/protonode/protograph.py:64-67 | a non-graph is a ValueError; otherwise the other graph's node list is appended and nothing else changes |
| ProtoGraphs.ProtoGraph.Index | src/relion/protonode/protograph.py:69-70 | the position of the first member equal to the node, ValueError when there is none |
| ProtoGraphs.ProtoGraph.Eq | src/relion/protonode/protograph.py:23-30 | graph `==`: the other is a graph with as many members, and every successor of the graph node is a successor of the other's graph node, as the inherited iterator compares |
| ProtoGraphs.ProtoGraph.SuccessorsIn | src/relion/protonode/protograph.py:109-111 | the collected children are exactly the successors of the iterated nodes |
| ProtoGraphs.ProtoGraph.FindOrigins | src/relion/protonode/protograph.py:108-113 | `for node in self` walks the graph node's own successors: the origins are those successors that no such successor leads to, in order; the member list plays no part |
| ProtoGraphs.ProtoGraph.Merge | src/relion/protonode/protograph.py:115-128 | the answer is True exactly when a name of the graph node's own successors is a name of the other graph node's successors, else False; on True every successor of the other graph node is appended (the name-versus-node test in the loop never matches); on False the node list is unchanged |
| ProtoGraphs.ProtoGraph.InvokeOnce | src/relion/protonode/protograph.py:146-155 | one call of the node: the result is the operation applied to the node and its keyword arguments, and each successor gains one completion entry; nothing is recorded yet |
| ProtoGraphs.ProtoGraph.InvokeRow | src/relion/protonode/protograph.py:172-186 | one row of list traffic: the row merges into the node's environment and the node runs with the layered arguments |
| ProtoGraphs.ProtoGraph.RunRows | src/relion/protonode/protograph.py:170-187 | an AttributeError exactly when some row is not a dict; otherwise one result per row, each the operation on that row, the environment absorbs the rows, and each successor gains one completion per result |
| ProtoGraphs.ProtoGraph.InvokeRows | src/relion/protonode/protograph.py:170-187 | as `RunRows`, and on success the list of per-row results is stored once under the node's key |
| ProtoGraphs.ProtoGraph.DictCall | src/relion/protonode/protograph.py:156-169 | dict traffic merges into the node's environment and the result is the operation on the traffic layered with the delayed traffic |
| ProtoGraphs.ProtoGraph.InvokeDict | src/relion/protonode/protograph.py:145-169 | a ready node given dict traffic is added to the called nodes and its result is stored under its key in the call returns |
| ProtoGraphs.ProtoGraph.InvokeList | src/relion/protonode/protograph.py:170-205 | a ready node given list traffic is called exactly when every row is a dict, else an AttributeError |
| ProtoGraphs.ProtoGraph.InvokeReady | src/relion/protonode/protograph.py:140-205 | the node is called exactly when the answer is Pass and its traffic and delayed traffic are invocable; traffic that is not invocable changes nothing; the barrier invariant is kept |
| ProtoGraphs.ProtoGraph.ParkAt | src/relion/protonode/protograph.py:206-216 | the node's delayed traffic becomes what `Park` gives, or stays as it was when `Park` fails |
| ProtoGraphs.ProtoGraph.Visit | src/relion/protonode/protograph.py:134-216 | `called` means the node was called before or became ready now; otherwise its traffic is parked as `Park` states |
| ProtoGraphs.ProtoGraph.EdgeTraffic | src/relion/protonode/protograph.py:219-224 | no link record gives an empty dict; a None record forwards the node's recorded result, a KeyError when there is none; any other record is the traffic itself |
| ProtoGraphs.ProtoGraph.Follow | src/relion/protonode/protograph.py:134-234 | `_follow`: depth 0 is a RecursionError that changes nothing; a non-member gives Pass and changes nothing; the graph invariants are kept |
| ProtoGraphs.ProtoGraph.Forward | src/relion/protonode/protograph.py:217-234 | the successor's `_propagate` absorbs the node's; a missing recorded result is a KeyError that follows nothing; from a called node an edge already traversed is followed no further and nothing else changes; an edge not yet traversed from a called node is recorded and followed, and from a node not called the edge is followed unrecorded; a follow with no depth left is a RecursionError, and one into a non-member changes nothing more |
| ProtoGraphs.ProtoGraph.Traverse | src/relion/protonode/protograph.py:130-132 | a traversal keeps the graph invariants and only adds calls, edges and completions |
| ProtoGraphs.ProtoGraph.Call | src/relion/protonode/protograph.py:43-53 | the keyword arguments merge into the graph node's environment; on success the called nodes and traversed edges are empty again and the answer is None exactly when no result was recorded; edges and members are unchanged |
| Env.Propagate.constructor | src/relion/protonode/environment.py:6-8 | an empty store, not released |
| Env.Propagate.Get | src/relion/protonode/environment.py:10-11 | `__getitem__`: succeeds exactly when the key is stored, with the stored value; a missing key is a KeyError |
| Env.Propagate.Set | src/relion/protonode/environment.py:13-16 | stores the value and marks the store released; once released it stays released |
| Env.Propagate.Keys | src/relion/protonode/environment.py:18-20 | None while unreleased, the stored keys afterwards |
| Env.Escalate.constructor | src/relion/protonode/environment.py:24-26 | an empty store, not released |
| Env.Escalate.Get | src/relion/protonode/environment.py:28-29 | the stored value; a missing key gives None, as the lookup of the environment that holds the store does |
| Env.Escalate.Set | src/relion/protonode/environment.py:31-34 | stores the value and marks the store released, never unreleased |
| Env.BaseOf | src/relion/protonode/environment.py:81-103 | `set_base`: None gives an empty base and the default iterator, a dict becomes the base, a list becomes the iterator with an empty base, and any other type is a TypeError |
| Env.MergeEach | src/relion/protonode/environment.py:77-78 | equal-length lists of dicts merge position by position, the new entries winning |
| Env.Environment.constructor | src/relion/protonode/environment.py:38-42 | the base and iterator from `set_base`, the iterator stepped once (temp is its first entry and the cursor 1, or no temp at cursor 0 for an empty iterator), and fresh unreleased overlays; `Aligned` holds: temp is the iterator entry last stepped to |
| Env.Environment.Create | src/relion/protonode/environment.py:38-42 | construction fails with TypeError exactly when the base is not None, a dict or a list |
| Env.Environment.Lookup | src/relion/protonode/environment.py:44-53 | the base first; without a temp layer, a key missing from the base is an AttributeError; otherwise the first of temp, released propagate and released escalate holding the key, None when none does |
| Env.Environment.Set | src/relion/protonode/environment.py:55-56 | writes into the base only, and reading the key back gives the value; temp and the overlays are unchanged, `Aligned` kept |
| Env.Environment.Step | src/relion/protonode/environment.py:58-63 | the iterator step: the temp layer becomes the entry under the cursor and the cursor advances, True; at the end, False and nothing changes; `Aligned` kept |
| Env.Environment.Update | src/relion/protonode/environment.py:65-78 | a dict merges into the base; a list replaces the default iterator; a list of another length is a ValueError that changes nothing; an equal-length list merges entry-wise, and since temp is the very dict last stepped to, the merge reaches temp too: the merged keys of that entry are visible through `env[key]` unless the base shadows them; `Aligned` kept |
| Graphs.ChildrenIn | src/relion/node/graph.py:204-209 | the children are exactly the successors of the non-sentinel members |
| Graphs.OriginsIn | src/relion/node/graph.py:212-216 | origins are exactly the non-sentinel members that are no member's child, in list order |
| Graphs.FreshOrigins | src/relion/node/graph.py:204-217 | for a new graph the origins are the given nodes that no given node leads to |
| Graphs.Inner | src/relion/node/graph.py:228 | the members other than the two sentinels, in order |
| Graphs.AfterRoundsHalve | src/relion/node/graph.py:165-166 | the start-unlink loop as written leaves the odd positions of the successor list |
| Graphs.HalvedLength | src/relion/node/graph.py:165-166 | the loop as written stops after half the successors, rounded up |
| Graphs.StartKeepsSecond | src/relion/node/graph.py:165-166 | with two successors the loop as written keeps the second |
| Graphs.UnlinkedIn | src/relion/protonode/protonode.py:75-77 | after unlinking, a duplicate-free successor list no longer holds the node and keeps the others in order |
| Graphs.UnlinkedTwice | src/relion/protonode/protonode.py:75-77 | unlinking twice is unlinking once |
| Graphs.RelinkEdges | src/relion/node/graph.py:165-174 | relinking the sentinels keeps the inner edges and leaves the start node leading to the origins and the leaves leading to the end |
| Graphs.CountIntoFiresOnce | src/relion/node/graph.py:390-395 | as edges are recorded, the count into a successor rises by one each time, so "count equals fan-in minus one" holds for at most one recorded edge |
| Graphs.Graph.NewNodes | src/relion/node/graph.py:20-23 | the graph node and its two sentinels become three new nodes named `name`, `name_start`, `name_end` |
| Graphs.Graph.constructor | src/relion/node/graph.py:17-44 | node list `[start] + nodes + [end]`; the origins are the given nodes no given node leads to; start leads to each origin, and to end when there are none (sharing the sentinels' lists and `auto_connect` are under Left out) |
| Graphs.Graph.GetItem | src/relion/node/graph.py:63-66 | a non-integer, non-boolean index is a ValueError; an integer indexes as Python does, with IndexError out of range; a boolean is the index 0 or 1 |
| Graphs.Graph.WireFresh | src/relion/node/graph.py:24-36 | construction wiring: start linked to the origins and every member without successors linked to end |
| Graphs.Graph.Wire | src/relion/node/graph.py:167-174 | the sentinel wiring after a change keeps the edge lists consistent and links start to the origins and leaves to end |
| Graphs.Graph.FindOrigins | src/relion/node/graph.py:204-217 | the answer is exactly the list `OriginsIn` describes |
| Graphs.Graph.CollectChildren | src/relion/node/graph.py:205-209 | the loop collects exactly the successors of the non-sentinel members |
| Graphs.Graph.CollectOrigins | src/relion/node/graph.py:212-216 | the comprehension keeps, in order, the non-sentinel members that are not children |
| Graphs.Graph.LinkStart | src/relion/node/graph.py:167 | the start sentinel gains every given node as a successor and no other node's edges change |
| Graphs.Graph.LinkEnd | src/relion/node/graph.py:32-36 | a node without successors, other than the end sentinel, is linked to end; any other node is left alone |
| Graphs.Graph.LinkEnds | src/relion/node/graph.py:32-36 | exactly the members without successors, other than end, gain end as their only successor |
| Graphs.Graph.UnlinkStartAsWritten | src/relion/node/graph.py:165-166 | the loop as written leaves the start node with the odd positions of its successor list |
| Graphs.Graph.UnlinkSuccessors | src/relion/node/graph.py:165-166 | the intended unlink: the start node is left with no successors |
| Graphs.Graph.UnlinkEnd | src/relion/node/graph.py:168-169 | every predecessor of the end sentinel stops leading to it |
| Graphs.Graph.Relink | src/relion/node/graph.py:165-174 | after relinking, start leads exactly to the current origins and the leaves lead to end |
| Graphs.Graph.AddNode | src/relion/node/graph.py:156-176 | a non-node is a ValueError; a member already present is not added again; a new node is appended after end and the sentinels are rewired |
| Graphs.Graph.Eq | src/relion/node/graph.py:46-53 | graph `==` holds exactly when the other is a graph with as many members and every member of this graph, sentinels included, is a member of the other (by identity); so an equal graph lists this graph's sentinels |
| Graphs.Graph.Index | src/relion/node/graph.py:125-131 | the position of the member itself, else of the first member with the same name, else None |
| Graphs.Graph.Explore | src/relion/node/graph.py:146-154 | the answer is the depth-first preorder `Preorder`: the node is appended unless already listed or a sentinel, then each successor is explored in turn with the list as it has grown, with no check for nodes explored before |
| Graphs.Graph.PreorderFacts | src/relion/node/graph.py:146-154 | the preorder succeeds exactly when no walk as long as the depth leaves the node, else with a RecursionError; it only appends, keeps a duplicate-free list duplicate-free, and gains exactly the non-sentinel nodes reachable within the depth |
| Graphs.Graph.NodeExplore | src/relion/node/graph.py:146-154 | a non-node is a ValueError; otherwise the answer is the preorder, which succeeds exactly when no walk as long as the depth leaves the node (else a RecursionError), only appends, keeps the list duplicate-free and gains exactly the non-sentinel nodes reachable from the node |
| Graphs.Graph.RemoveStartFromSuccessors | src/relion/node/graph.py:220-225 | the start sentinel is removed from every successor's `_in`; a successor without it is a ValueError |
| Graphs.TailPreds | src/relion/node/graph.py:220-226 | the nodes the end loop walks are taken from end's `_in`, and are exactly that list unless end is a successor of start, whose loop first drops start from it |
| Graphs.Graph.RemoveEndFromPredecessors | src/relion/node/graph.py:226-227 | succeeds exactly when every node end records in `_in` is recorded once and still lists end; then each of them drops end from its `_out`, no other `_out` changes, and otherwise it is a ValueError |
| Graphs.Graph.TopAndTail | src/relion/node/graph.py:219-228 | succeeds exactly when every successor of start lists it in `_in` and every node end's `_in` still records (after start is dropped from it) is recorded once and still lists end; either failure is a ValueError, including the stale `_in` entry a node keeps after `unlink_from`. On success start leaves each successor's `_in`, each such predecessor's `_out` loses end and nothing else, no other node's `_out` changes, and the inner members are the answer, in order |
| Graphs.Graph.AddAll | src/relion/node/graph.py:234-240 | every given node ends up a member, new ones appended through `add_node`, and no other node joins; a node already present is that very node, so the source's linking loop adds no edge for it |
| Graphs.Graph.Merge | src/relion/node/graph.py:230-244 | an error is a ValueError; False exactly when no name is shared between the two node lists (sentinels included), and then nothing changes; otherwise True, with the other graph's nodes joined and the start linked to its origins |
| Graphs.Graph.Invoke | src/relion/node/graph.py:336-345 | a node runs only when all its predecessors completed, it was not called before and its `run` flag is set; it is then recorded as called |
| Graphs.Graph.ForwardEdge | src/relion/node/graph.py:390-426 | an edge is recorded once; the successor is queued with `run` true exactly when the edges recorded into it reach its fan-in minus one |
| Graphs.Graph.ForwardAll | src/relion/node/graph.py:368-426 | every successor edge of the visited node is handled as `ForwardEdge` states |
| Graphs.Graph.Step | src/relion/node/graph.py:325-426 | one visit from the queue: the invocation bookkeeping, then the edges forwarded |
| Graphs.Graph.Run | src/relion/node/graph.py:275-286 | visits are taken from the queue until it is empty, keeping the invariants |
| Graphs.Graph.ClearAll | src/relion/node/graph.py:91-93 | every member's `_completed` becomes empty; nothing else changes |
| Graphs.Graph.Func | src/relion/node/graph.py:78-97 | after `func` the traversal lists are cleared, every member's `_completed` is empty, and the result is None when nothing was recorded |
| Tables.ProcessId.constructor | src/relion/dbmodel/modeltables.py:7-8 | the counter starts at the given value |
| Tables.ProcessId.Next | src/relion/dbmodel/modeltables.py:10-13 | returns the current value and increments it by one, so successive ids strictly increase |
| Tables.EmptyColumns | src/relion/dbmodel/modeltables.py:22-24 | every column is present and empty |
| Tables.SchemaOf | src/relion/dbmodel/modeltables.py:165-286 | the columns, primary key, unique, counter and append columns of each table class; the CTF max-resolution column is spelt `max_resolution`, the corrected half of the finding on modeltables.py:203 |
| Tables.SchemasWellFormed | src/relion/dbmodel/modeltables.py:165-286 | every table class has its primary key, unique, counter and append columns among its columns |
| Tables.Indices | src/relion/dbmodel/modeltables.py:113-117 | exactly the row positions at which the column holds the value, in ascending order |
| Tables.Common | src/relion/dbmodel/modeltables.py:131-138 | a position is kept exactly when it is in the first list and in every match list |
| Tables.CommonLeast | src/relion/dbmodel/modeltables.py:139-141 | for an ascending first list, the row picked among the common matches is the smallest of them |
| Tables.UniqueIndices | src/relion/dbmodel/modeltables.py:111-123 | one match list per unique column, each the positions holding the incoming value (None for an absent keyword) |
| Tables.UniqueCheck | src/relion/dbmodel/modeltables.py:108-144 | `_unique_check` fails exactly when the unique list is empty, with the IndexError of `unique_indices[0]`; every other outcome is a value |
| Tables.MatchesInAll | src/relion/dbmodel/modeltables.py:111-138 | a position is in every match list exactly when that row holds the incoming value in every unique column |
| Tables.UniqueCheckFinds | src/relion/dbmodel/modeltables.py:108-141 | when some row matches every unique column, the answer is the primary key of the first such row |
| Tables.UniqueCheckMisses | src/relion/dbmodel/modeltables.py:108-142 | when no row matches every unique column, the answer is None |
| Tables.AppendRow | src/relion/dbmodel/modeltables.py:64-70 | a new row adds exactly one entry to the primary key column, keeps every old entry, and the columns stay consistent with the schema |
| Tables.AddMissing | src/relion/dbmodel/modeltables.py:80-93 | the old values stay first; the result holds exactly the old and the incoming values, and each added value is new |
| Tables.Cell | src/relion/dbmodel/modeltables.py:75-98 | an existing row's cell: the change flag is set exactly when the cell differs; non-append columns take the incoming value, None included; an append column holding lists gains the missing incoming items after its own; for non-lists an append column keeps its cell |
| Tables.UpdateRow | src/relion/dbmodel/modeltables.py:72-98 | updating a row keeps every column's length and the primary keys, and changes no other row |
| Tables.Inserted | src/relion/dbmodel/modeltables.py:64-70 | a new row is appended to every column, old entries kept; the answer key is never None and the table always changes; the counter advances by at most one |
| Tables.Updated | src/relion/dbmodel/modeltables.py:71-98 | updating the matched row keeps the primary keys and the counter; the answer is None exactly when nothing changed, and otherwise the matched key |
| Tables.AddRowSpec | src/relion/dbmodel/modeltables.py:51-106 | `add_row` fails only for an empty unique list; otherwise the answer is None exactly when the table is unchanged, and either one row is appended, old entries kept, or no row is appended and the counter is unchanged |
| Tables.Upserted | src/relion/dbmodel/modeltables.py:64-106 | the append-or-update choice of `add_row` keeps the table consistent with its schema |
| Tables.AddRowSame | src/relion/dbmodel/modeltables.py:72-106 | re-adding an identical row to a table without counters answers None and changes nothing |
| Tables.AddRowCounters | src/relion/dbmodel/modeltables.py:58-63 | each counter of a new row is the column length plus one |
| Tables.RowIndexOf | src/relion/dbmodel/modeltables.py:146-155 | `get_row_index`: nothing for a None value; a missing column is a KeyError (TypeError for an unhashable key); no match, the only match, or all the ascending matching positions when there are several |
| Tables.RowByKey | src/relion/dbmodel/modeltables.py:157-162 | `get_row_by_primary_key` succeeds exactly when one row holds the key; a missing key or several rows is the TypeError of indexing with None or a list |
| Tables.FreshKeyIndex | src/relion/dbmodel/modeltables.py:146-155 | after an append, the new key is found at the last position |
| Tables.FreshRow | src/relion/dbmodel/modeltables.py:64-70 | with a truthy key, the appended row reads back as the incoming value of each column |
| Tables.InsertThenLookup | src/relion/dbmodel/modeltables.py:157-162 | a row appended under a fresh key is found again by that key, with the values stored |
| Tables.MessageFor | src/relion/dbmodel/modeltables.py:432-494 | `construct_message`: ValueError for an unknown table class; otherwise succeeds exactly when the row lookup does, with every column's value from the row and the table's `ispyb_command` |
| Tables.Raise | src/relion/dbmodel/modeltables.py:302-306 | `_last_update[source]` is raised to the end time only if later, never lowered |
| Tables.RaiseTwice | src/relion/dbmodel/modeltables.py:302-306 | raising twice to the same end time is raising once |
| Tables.RaiseCommutes | src/relion/dbmodel/modeltables.py:302-306 | the order of two raises does not matter |
| Tables.Stamped | src/relion/dbmodel/modeltables.py:289-306 | an unknown table class is a ValueError, an unhashable source a TypeError, a missing source a KeyError; otherwise only that source's stamp changes, raised as `Raise` states, and comparing None with a time is a TypeError |
| Tables.ExtrasDistinct | src/relion/dbmodel/modeltables.py:307-427 | the keywords insert adds from the options are distinct for each table class |
| Tables.ReadOptions | src/relion/dbmodel/modeltables.py:307-312 | succeeds exactly when every option named is present, with each keyword taking its option's value; otherwise an AttributeError |
| Tables.Subscript | src/relion/dbmodel/modeltables.py:422-424 | `container[index]` as Python does: a list by an integer, IndexError out of range; a dict by a string, KeyError when missing; None, an integer or a boolean is a TypeError |
| Tables.InitialModelParticles | src/relion/dbmodel/modeltables.py:422-424 | a missing particle list or class number is a KeyError; on success `number_of_particles` is the particle list indexed by the class number |
| Tables.ExtraArgs | src/relion/dbmodel/modeltables.py:307-427 | succeeds exactly when every option the table class reads is present (and, for the picker, the diameter options), with each keyword taking its option's value and `particle_diameter` the diameter; otherwise an AttributeError |
| Tables.JoinKeywords | src/relion/dbmodel/modeltables.py:307-312 | keyword arguments joined with the added ones; a keyword given twice is a TypeError |
| Tables.InsertArgs | src/relion/dbmodel/modeltables.py:290-429 | on success the caller's keywords are kept (except `number_of_particles` for the initial model), no table-specific keyword was given by the caller, and each takes its option's value; with the options present, a failure outside the picker and the initial model is the TypeError of a keyword given twice |
| Tables.RowAdded | src/relion/dbmodel/modeltables.py:307 | `add_row` inside insert leaves the update times alone and fails exactly when `AddRowSpec` does; a failure changes nothing |
| Tables.InsertSpec | src/relion/dbmodel/modeltables.py:289-429 | `insert`: an unknown table class is a ValueError and a missing source a KeyError, both changing nothing; only the source's update time can change and it is never lowered; on success it is raised to the end time as `Raise` states |
| Tables.CtfAsWrittenWellFormed | src/relion/dbmodel/modeltables.py:195-216 | the CTF schema as written, with its misspelt column, is still a consistent schema |
| Tables.AppendIgnores | src/relion/dbmodel/modeltables.py:66-70 | a value under a keyword that is not a column is not stored |
| Tables.AppendHolds | src/relion/dbmodel/modeltables.py:66-70 | a value under a column's keyword is stored in that column |
| Tables.CtfMaxResolutionLostAsWritten | src/relion/dbmodel/modeltables.py:203 | with the column spelt as written, the maximum resolution insert passes is not stored |
| Tables.CtfInsertPassesMaxResolution | src/relion/dbmodel/modeltables.py:333 | the CTF insert passes the maximum resolution under `max_resolution` |
| Tables.CtfMaxResolutionStored | src/relion/dbmodel/modeltables.py:197-216 | with the column spelt `max_resolution`, the value insert passes is stored |
| Tables.Table.EmptyTab | src/relion/dbmodel/modeltables.py:22-24 | a map with every column empty |
| Tables.Table.constructor | src/relion/dbmodel/modeltables.py:20-46 | every column empty, single names wrapped into lists, the table's own update time 0 |
| Tables.Table.Of | src/relion/dbmodel/modeltables.py:165-286 | each table class starts with its schema (CTF with the corrected `max_resolution` column), empty columns and update time 0 |
| Tables.Table.CollectIndices | src/relion/dbmodel/modeltables.py:111-123 | the loop builds the match lists `UniqueIndices` describes |
| Tables.Table.AnyDisjoint | src/relion/dbmodel/modeltables.py:125-129 | true exactly when some match list is empty |
| Tables.Table.Overlap | src/relion/dbmodel/modeltables.py:131-138 | the intersection loop computes the positions common to all match lists |
| Tables.Table.CheckUnique | src/relion/dbmodel/modeltables.py:108-144 | the answer is `UniqueCheck` |
| Tables.Table.NumberCounters | src/relion/dbmodel/modeltables.py:58-63 | each counter keyword becomes the column length plus one |
| Tables.Table.AppendColumnAt | src/relion/dbmodel/modeltables.py:66-70 | one column of a new row gains its entry, and only that column |
| Tables.Table.NewRow | src/relion/dbmodel/modeltables.py:64-70 | the key is filled from the counter when missing or falsy |
| Tables.Table.AppendNewRow | src/relion/dbmodel/modeltables.py:64-70 | the columns become `AppendRow` of the old ones |
| Tables.Table.MergeMissing | src/relion/dbmodel/modeltables.py:80-93 | the loop adds exactly the missing values, in order |
| Tables.Table.MergeCell | src/relion/dbmodel/modeltables.py:75-98 | one cell becomes `Cell` and the change flag is set when it differs |
| Tables.Table.MergeRow | src/relion/dbmodel/modeltables.py:72-98 | the row becomes `UpdateRow` of the old one |
| Tables.Table.UpdateExisting | src/relion/dbmodel/modeltables.py:72-98 | the matched row is updated and the answer says whether it changed |
| Tables.Table.AddRow | src/relion/dbmodel/modeltables.py:51-106 | the table and answer are those `AddRowSpec` describes |
| Tables.Table.AppendOrUpdate | src/relion/dbmodel/modeltables.py:64-98 | the append-or-update branch of `add_row`, as `Upserted` describes |
| Tables.Table.GetRowByPrimaryKey | src/relion/dbmodel/modeltables.py:157-162 | the answer is `RowByKey` |
| Tables.Table.CopyRow | src/relion/dbmodel/modeltables.py:159-161 | the loop copies the row's value from every column |
| Tables.Table.ConstructMessage | src/relion/dbmodel/modeltables.py:432-494 | the answer is `MessageFor` |
| Tables.Table.Insert | src/relion/dbmodel/modeltables.py:289-429 | the table and answer are those `InsertSpec` describes |
| DBNodes.KeysAt | src/relion/dbmodel/dbnode.py:82-84 | one primary key per matching position, each the key of that row |
| DBNodes.StoreForeign | src/relion/dbmodel/dbnode.py:82-90 | storing under `foreign_key`: without that environment key the values are unchanged, a non-string name is a TypeError, otherwise the value is stored under it |
| DBNodes.DoCheck | src/relion/dbmodel/dbnode.py:68-94 | `_do_check`: without `check_for` the values are unchanged; an unhashable `check_for` is a TypeError, the only error; without a foreign table nothing changes; any change sets only `foreign_key`, to what the foreign table holds for the checked value |
| DBNodes.Lookup | src/relion/dbmodel/dbnode.py:75-90 | the foreign lookup of one check: the values are unchanged or only `foreign_key` is set, to keys found in the foreign column for the checked value; errors are TypeErrors |
| DBNodes.DoCheckOne | src/relion/dbmodel/dbnode.py:75-90 | when the checked value occurs exactly once in the foreign column, `foreign_key` becomes the primary key of that row |
| DBNodes.DoCheckSeveral | src/relion/dbmodel/dbnode.py:75-85 | when the checked value occurs in two or more rows of the foreign column, `foreign_key` becomes the list of those rows' primary keys, in row order, and nothing else changes |
| DBNodes.DoCheckFinds | src/relion/dbmodel/dbnode.py:70-90 | whenever the checked value occurs in the foreign column, the check succeeds and sets `foreign_key`, and only it, to the single key or the list of keys `Found` describes |
| DBNodes.DoCheckTwice | src/relion/dbmodel/dbnode.py:68-94 | when `foreign_key` is not the checked keyword, checking again gives the same values |
| DBNodes.WithoutSource | src/relion/dbmodel/dbnode.py:56-58 | a `source` keyword that is not None is taken out; a None `source` is kept (and so reaches `modeltables.insert` a second time); every other keyword is kept with its value |
| DBNodes.Round | src/relion/dbmodel/dbnode.py:59-66 | one table's round, the check and then the insert, keeps every table consistent and the table count |
| DBNodes.Placed | src/relion/dbmodel/dbnode.py:62-66 | the second half of a round keeps one unsent list per table and the table count; its clash TypeError is stated by `KeywordClashRejected`, its row by `InsertAt` |
| DBNodes.Run | src/relion/dbmodel/dbnode.py:59-66 | the rounds from table `i` on keep every table consistent and the table count |
| DBNodes.RoundQueues | src/relion/dbmodel/dbnode.py:65-66 | a round queues at most one id, on its own table's unsent list, and removes none |
| DBNodes.InsertAll | src/relion/dbmodel/dbnode.py:55-66 | `insert` over all tables, with `source` taken out, keeps every table consistent and the table count |
| DBNodes.KeywordClashRejected | src/relion/dbmodel/dbnode.py:55-64 | a keyword named like a parameter of `DBNode.insert` (`end_time`, `extra_options`) or of `modeltables.insert` (`primary_table`, `end_time`, `source`, `relion_options`) makes `insert` a TypeError that leaves every table and unsent list as it was |
| DBNodes.NoneSourceRejected | src/relion/dbmodel/dbnode.py:56-64 | `insert(..., source=None, ...)` is a TypeError: the None `source` is kept in the keywords and passed a second time |
| DBNodes.PerId | src/relion/dbmodel/dbnode.py:100-108 | one message result per unsent id |
| DBNodes.TableMessagesCount | src/relion/dbmodel/dbnode.py:100-108 | a table's messages, on success, are one per unsent id |
| DBNodes.PerTable | src/relion/dbmodel/dbnode.py:100-108 | one result per table, each that table's messages for its unsent ids |
| DBNodes.AllMessagesCount | src/relion/dbmodel/dbnode.py:96-109 | the messages of all tables, on success, are one per unsent id |
| DBNodes.MessageSkipsAsWritten | src/relion/dbmodel/dbnode.py:100-108 | the loop as written leaves an unsent id behind: for two ids only the first is sent |
| DBNodes.MessageSkipsMiddleAsWritten | src/relion/dbmodel/dbnode.py:100-108 | for three ids the loop as written sends the first and third and leaves the second |
| DBNodes.SweepFirstRound | src/relion/dbmodel/dbnode.py:100-108 | the first round of the loop as written |
| DBNodes.SweepSecondRound | src/relion/dbmodel/dbnode.py:100-108 | the second round of the loop as written |
| DBNodes.AnnounceTable | src/relion/dbmodel/dbnode.py:101-108 | the answer is the table's messages; its ids move from unsent to sent in order, none lost, and on success none stays unsent |
| DBNodes.MovedKeeps | src/relion/dbmodel/dbnode.py:107-108 | moving preserves sent plus unsent |
| DBNodes.Announce | src/relion/dbmodel/dbnode.py:100-109 | the answer is the messages of all tables; each table's ids move from unsent to sent in order, none lost, and on success every id is sent after the earlier sent ones |
| DBNodes.InsertRound | src/relion/dbmodel/dbnode.py:59-66 | a loop round is the `Round` of its table |
| DBNodes.InsertRow | src/relion/dbmodel/dbnode.py:62-66 | the insert into one table and the queueing of its id, or the TypeError of a clashing keyword, are exactly `Placed` |
| DBNodes.InsertAt | src/relion/dbmodel/dbnode.py:62-64 | only table `i` changes, and as `InsertSpec` states |
| DBNodes.InsertTables | src/relion/dbmodel/dbnode.py:59-66 | the loop over the tables computes `Run` |
| DBNodes.DBNode.constructor | src/relion/dbmodel/dbnode.py:6-12 | every table records the node's name at time 0; one empty sent and one empty unsent list per table |
| DBNodes.DBNode.SetForeignTable | src/relion/dbmodel/dbnode.py:71 | setting `environment["foreign_table"]` makes that table the one `_do_check` reads, and leaves the sent and unsent queues as they were |
| DBNodes.DBNode.Bool | src/relion/dbmodel/dbnode.py:29-32 | `bool(node)` is true exactly when the node has tables |
| DBNodes.DBNode.UpdateTimes | src/relion/dbmodel/dbnode.py:47-53 | `update_times(source)`: an unhashable source is a TypeError when there are tables; success exactly when every table knows the source, with one update time per table, in order |
| DBNodes.DBNode.Insert | src/relion/dbmodel/dbnode.py:55-66 | the outcome, tables, unsent lists and counter are `InsertAll`'s, a clashing keyword giving a TypeError; sent lists never change |
| DBNodes.DBNode.Message | src/relion/dbmodel/dbnode.py:96-109 | no constructor: no messages, nothing moved; otherwise every unsent id gets its message and moves to sent, with sent plus unsent preserved |
| DBNodes.DBNode.Call | src/relion/dbmodel/dbnode.py:34-45 | the insert with `extra_options`, `end_time` and `message_constructor` taken out, the successors marked, the messages answered; an insert error answers that error |
| DBNodes.DBNode.Finish | src/relion/dbmodel/dbnode.py:44-45 | the node marks its successors completed and answers the messages |
| DBNodes.EndTime | src/relion/dbmodel/dbnode.py:36 | the end time keyword, when present |
| DBNodes.CallArgs | src/relion/dbmodel/dbnode.py:38-42 | the keywords without `extra_options`, `end_time` and `message_constructor` |
| DBGraphs.Items | src/relion/dbmodel/dbgraph.py:16 | what `list.extend` takes from a result: a list's items or a string's characters; None, numbers, booleans and dicts are a TypeError (the dict case is listed under Left out) |
| DBGraphs.PerResult | src/relion/dbmodel/dbgraph.py:15-16 | one node's recorded results, in order |
| DBGraphs.FlattenedFails | src/relion/dbmodel/dbgraph.py:14-16 | the flattening succeeds exactly when every recorded result is a list or a string; otherwise a TypeError |
| DBGraphs.FlattenedLists | src/relion/dbmodel/dbgraph.py:14-16 | the concatenation of the recorded lists, in order |
| DBGraphs.Extend | src/relion/dbmodel/dbgraph.py:14-16 | the loop builds the concatenation |
| DBGraphs.PerNode | src/relion/dbmodel/dbgraph.py:21-22 | one member's update times |
| DBGraphs.AllTimesShape | src/relion/dbmodel/dbgraph.py:19-23 | succeeds exactly when every member's `update_times` does, else with some member's error; on success one entry per table of every member |
| DBGraphs.Stamp | src/relion/dbmodel/dbgraph.py:8-10 | every table of a member gets the graph name at time 0 |
| DBGraphs.StampAll | src/relion/dbmodel/dbgraph.py:8-10 | all members stamped |
| DBGraphs.DBGraph.constructor | src/relion/dbmodel/dbgraph.py:5-10 | `environment["source"]` is the graph's name, member order is kept, and every table of every member records the graph name at time 0 |
| DBGraphs.DBGraph.Call | src/relion/dbmodel/dbgraph.py:12-17 | the keywords merge into the graph node's environment, edges and names are unchanged; an unfinished traversal is an error; otherwise the call records are cleared and the answer is the concatenation of the recorded per-node lists, in recorded order |
| DBGraphs.DBGraph.UpdateTimes | src/relion/dbmodel/dbgraph.py:19-23 | the concatenation of the members' update times, in member order |
| ProcessNodes.InitialAttributes | src/relion/_parser/processnode.py:10-14 | the attributes a new node starts with: every keyword plus each end-time key, each holding its keyword's value or None |
| ProcessNodes.Timestamp | src/relion/_parser/processnode.py:39-41 | an integer end timestamp is the time; anything else is a TypeError |
| ProcessNodes.Stale | src/relion/_parser/processnode.py:42-44 | results are collected when none were collected before or the last collection is strictly earlier than the end timestamp; comparing anything else is a TypeError |
| ProcessNodes.CollectNothing | src/relion/_parser/processnode.py:35-38 | no `result` gives None; no end timestamp gives `[]` |
| ProcessNodes.CollectWhenStale | src/relion/_parser/processnode.py:39-54 | with an end timestamp, `end_time` is set; when stale, results are unpacked and the collection time recorded; otherwise the answer is `{}` and the attributes are unchanged |
| ProcessNodes.CollectMonotone | src/relion/_parser/processnode.py:42-47 | only `results_last_collected` can be added or changed, and an integer one never decreases |
| ProcessNodes.CollectTwice | src/relion/_parser/processnode.py:34-54 | a second call changes neither the attributes nor the environment, and after a stale collection it answers `{}` |
| ProcessNodes.Named | src/relion/_parser/processnode.py:9 | keeps exactly the components of the split path that are neither empty nor `.`, in order |
| ProcessNodes.Parts | src/relion/_parser/processnode.py:9 | every component of the path is non-empty, not `.`, and free of `/` |
| ProcessNodes.Root | src/relion/_parser/processnode.py:9 | the root is `/` or `//` when the path starts with a slash (`//` only for exactly two), and empty otherwise |
| ProcessNodes.PosixStr | src/relion/_parser/processnode.py:9 | `str(PurePosixPath(p))` is never empty, and is `.` exactly when the path has neither root nor components |
| ProcessNodes.PosixStrBare | src/relion/_parser/processnode.py:9 | `.`, `/` and `//` print as themselves |
| ProcessNodes.RootedParts | src/relion/_parser/processnode.py:9 | a root followed by components joined with `/` parses back into that root and those components |
| ProcessNodes.PosixStrIdempotent | src/relion/_parser/processnode.py:9 | normalising a printed path changes nothing |
| ProcessNodes.PosixStrTrailing | src/relion/_parser/processnode.py:9 | a trailing slash is dropped from any path with a non-slash character |
| ProcessNodes.PosixStrJobDir | src/relion/_parser/processnode.py:9 | `dir/job/` prints as `dir/job` |
| ProcessNodes.SameElements | src/relion/_parser/processnode.py:19-23 | duplicate-free successor lists of equal length with one included in the other hold the same nodes |
| ProcessNodes.ProcessNode.constructor | src/relion/_parser/processnode.py:7-15 | a new node named by the path as given, whose `_path` is the `PurePosixPath` of it |
| ProcessNodes.ProcessNode.EqSymmetric | src/relion/_parser/processnode.py:17-29 | against a non-node `==` compares the normalised path's string with `str(other)`; against a node, equal `_path`s (a `PurePosixPath` never equals a plain string) and the successors; node equality is reflexive and symmetric |
| ProcessNodes.ProcessNode.EqJobDir | src/relion/_parser/processnode.py:24-26 | a node made from `dir/job/` equals the string `dir/job`, and does not equal `dir/job/` |
| ProcessNodes.ProcessNode.Func | src/relion/_parser/processnode.py:34-54 | the collect-once step as `CollectWhenStale` states |
| ProcessNodes.ProcessNode.ChangeName | src/relion/_parser/processnode.py:56-58 | path and name both change |
| ClusterNodes.Pairs | src/relion/_parser/clusternode.py:12 | `zip`: the pairs up to the shorter list |
| ClusterNodes.Row | src/relion/_parser/clusternode.py:13-17 | each row has exactly the keys `job_id`, `micrograph_count`, `job_name`, `per_micrograph`, the last two copied from its info |
| ClusterNodes.Zipped | src/relion/_parser/clusternode.py:12-18 | one row per zipped pair of one info |
| ClusterNodes.FlattenLength | src/relion/_parser/clusternode.py:9-19 | the output length is the sum over infos of the shorter list length; no infos give `[]` |
| ClusterNodes.FlattenAt | src/relion/_parser/clusternode.py:11-18 | the rows are the infos' rows in order |
| ClusterNodes.AppendRows | src/relion/_parser/clusternode.py:12-18 | the inner loop appends one info's rows |
| ClusterNodes.ClusterNode.constructor | src/relion/_parser/clusternode.py:5-7 | the node holds the given cluster infos |
| ClusterNodes.ClusterNode.Func | src/relion/_parser/clusternode.py:9-19 | the answer is the flattening `FlattenLength` and `FlattenAt` describe |
| Class2Ds.TallyCounts | src/relion/_parser/class2D.py:225-233 | each class number's count is its number of occurrences, and the counts sum to the input length; the same code also stands at src/relion/_parser/class3D.py:333-339 |
| Class2Ds.ParseInt | src/relion/_parser/class2D.py:101 | `int(name)` of a digit string, ValueError otherwise |
| Class2Ds.IntPairs | src/relion/_parser/class2D.py:101 | the counted class names as integer pairs, or the conversion error |
| Class2Ds.SortBySorted | src/relion/_parser/class2D.py:107 | `sorted` gives an ordered permutation |
| Class2Ds.SortBy | src/relion/_parser/class2D.py:107 | `sorted` keeps exactly the entries it is given, as a permutation |
| Class2Ds.PairLeTotal | src/relion/_parser/class2D.py:107 | tuple order is total |
| Class2Ds.ClassChecker | src/relion/_parser/class2D.py:236-243 | `_class_checker`: the loop computes `CheckFrom`, whose properties `CheckFromCovers`, `CheckFromKeeps` and `CheckFromLong` state; the same code also stands at src/relion/_parser/class3D.py:324-331 |
| Class2Ds.CheckFromCovers | src/relion/_parser/class2D.py:236-243 | the only error is an IndexError; on success each position below `length-1` holds a tuple containing its class number |
| Class2Ds.CheckFromKeeps | src/relion/_parser/class2D.py:236-243 | on success the original entries remain, in order, the list never shrinks, and every other entry is `(i, 0)` for a class `i` in range |
| Class2Ds.CheckFromLong | src/relion/_parser/class2D.py:236-243 | a long enough list never makes the loop fail |
| Class2Ds.ClassCheckerInserts | src/relion/_parser/class2D.py:239-241 | a missing class `i` gets `(i, 0)` inserted at position `i-1` |
| Class2Ds.ClassCheckerMatchesCount | src/relion/_parser/class2D.py:240 | the membership test also matches the pair's count, so a class whose number equals the count before it is not inserted |
| Class2Ds.ClassCheckerShort | src/relion/_parser/class2D.py:240 | an empty list checked for two classes raises IndexError |
| Class2Ds.CheckedCountsEmpty | src/relion/_parser/class2D.py:99-105 | the loader answers `[]` exactly when the class column is empty; the same code also stands at src/relion/_parser/class3D.py:114-115 |
| Class2Ds.Pad3 | src/relion/_parser/class2D.py:215 | `:03d`: the decimal digits of the number, exactly three below 1000 |
| Class2Ds.LastIterationMax | src/relion/_parser/class2D.py:206-212 | no stem's iteration exceeds the chosen one, and a non-zero choice is the iteration of some stem |
| Class2Ds.IterationBound | src/relion/_parser/class2D.py:206-207 | an iteration number has at most three digits |
| Class2Ds.FinalDataAndModelPicks | src/relion/_parser/class2D.py:205-223 | the names of the largest iteration with 3-digit padding; ValueError when there is none or a file is missing; the same code also stands at src/relion/_parser/class3D.py:304-322 |
| Class2Ds.TopTwentyOrder | src/relion/_parser/class2D.py:245-253 | each list is in non-increasing class distribution |
| Class2Ds.TopTwentyLargest | src/relion/_parser/class2D.py:245-253 | the kept entries and the dropped ones together are the input, and no dropped entry has a larger class distribution than a kept one |
| Class2Ds.TopTwentyAll | src/relion/_parser/class2D.py:245-253 | the keys are kept and each list becomes the top twenty `TopTwentyOrder` and `TopTwentyLargest` describe |
| Class2Ds.Row | src/relion/_parser/class2D.py:255-274 | one row per class, `type` `"2D"`, class number and count from the pair |
| Class2Ds.DbUnpack | src/relion/_parser/class2D.py:255-274 | one row per class, in order |
| Class2Ds.LastPiece | src/relion/_parser/class2D.py:158 | `split(sep)[-1]` is no longer than the string; `LastPieceAfter` states it is the text after the last separator |
| Class2Ds.LastPieceAfter | src/relion/_parser/class2D.py:158 | when no `"split"` follows the last one, `split("split")[-1]` is the text after it |
| Class2Ds.BatchNumber | src/relion/_parser/class2D.py:158 | the batch number never contains a `"."` |
| Class2Ds.BatchNumberOf | src/relion/_parser/class2D.py:158 | the batch number follows the last `"split"` and contains no `"."`; the same code also stands at src/relion/_parser/class3D.py:227 |
| Class2Ds.PickerJob | src/relion/_parser/class2D.py:203 | the picker job never contains a `/`; the only error is an IndexError |
| Class2Ds.PickerJobOf | src/relion/_parser/class2D.py:203 | the picker job is the text between the first and second `/`; the same code also stands at src/relion/_parser/class3D.py:302 |
| Class2Ds.ParserEqHash | src/relion/_parser/class2D.py:42-48 | `__eq__` holds exactly when the tuples `__hash__` hashes are equal, so equal parsers hash alike; it is symmetric, and a 2D and a 3D parser of one directory differ (the same code stands at src/relion/_parser/class3D.py:45-51) |
| Class3Ds.RemoveAll | src/relion/_parser/class3D.py:180 | `replace(pat, "")` never lengthens the string and keeps one without the pattern |
| Class3Ds.FirstClassPart | src/relion/_parser/class3D.py:177-179 | the first part containing "class", or None when none does |
| Class3Ds.FindClassToken | src/relion/_parser/class3D.py:177-189 | the for/else search gives the token of the first part containing "class", cut at `"."`, with "class" removed, or None |
| Class3Ds.ClassKey | src/relion/_parser/class3D.py:209 | `str(int(token))` is numeric with the token's value |
| Class2Ds.Decimal | src/relion/_parser/class3D.py:209 | `str(n)`: a digit string whose value is the number, with a leading zero only for 0 |
| Class3Ds.ClassKeyZeros | src/relion/_parser/class3D.py:204-209 | leading zeros do not change the key |
| Class3Ds.ClassKeyExample | src/relion/_parser/class3D.py:209 | for token "001" the key is "1" and an entry "01" is not counted |
| Class3Ds.InitModelParticlesNone | src/relion/_parser/class3D.py:177-189 | None exactly when no part contains "class"; the only error is ValueError |
| Class3Ds.InitModelParticlesZeros | src/relion/_parser/class3D.py:204-209 | the count ignores leading zeros in the token |
| Class3Ds.Row3D | src/relion/_parser/class3D.py:341-362 | a 3D row: `type` `"3D"`, class number and count from the pair, `number_of_particles`, `ini_model_job_string` and `batch_number` |
| Class3Ds.DbUnpack3D | src/relion/_parser/class3D.py:341-362 | one 3D row per class, in order |
| MotionCorrs.LookupKeeps | relion/_parser/motioncorrection.py:28-38 | a found key answers `basepath/key` and caches it; a failure is a KeyError that leaves the cache unchanged; entries are never altered |
| MotionCorrs.LookupAgain | relion/_parser/motioncorrection.py:31-38 | a cached key answers from the cache whatever the file system says |
| MotionCorrs.LookupNonString | relion/_parser/motioncorrection.py:29-30 | a non-string key is always a KeyError, and only it is |
| MotionCorrs.MotionCorr.constructor | relion/_parser/motioncorrection.py:13-19 | an empty cache |
| MotionCorrs.MotionCorr.GetItem | relion/_parser/motioncorrection.py:28-38 | the answer and new cache are `Lookup`'s |
| MotionCorrs.EntriesAt | relion/_parser/motioncorrection.py:108-113 | the first `n` names are the keys, each with the motions at its last index |
| MotionCorrs.ConstructDictKeys | relion/_parser/motioncorrection.py:101-115 | IndexError exactly when a motion list is shorter; otherwise the keys are the names and a repeated name keeps its last entry |
| CryoloRelionIt.Clean | src/relion/cryolo_relion_it/cryolo_relion_it.py:1863-1868 | text from a `#` past position 0 is dropped, a leading `#` kept, and the rest stripped |
| CryoloRelionIt.ReadLine | src/relion/cryolo_relion_it/cryolo_relion_it.py:1863-1906 | one line of `load_star`: data block, loop header, blank, column, field or row |
| CryoloRelionIt.ReadField | src/relion/cryolo_relion_it/cryolo_relion_it.py:1886-1895 | the `_key` line handler is `Field`: outside a loop `_key value` stores the second token |
| CryoloRelionIt.LoadStarLines | src/relion/cryolo_relion_it/cryolo_relion_it.py:1852-1908 | the loop over the lines computes `LoadStar`: the blocks read, or the first error |
| CryoloRelionIt.StepDataBlock | src/relion/cryolo_relion_it/cryolo_relion_it.py:1875-1880 | `data_NAME` opens an empty block NAME and leaves loop mode |
| CryoloRelionIt.StepLoopHeader | src/relion/cryolo_relion_it/cryolo_relion_it.py:1882-1884 | `loop_` enters column mode with no columns |
| CryoloRelionIt.StepBlank | src/relion/cryolo_relion_it/cryolo_relion_it.py:1870-1873 | a blank line ends the loop's rows |
| CryoloRelionIt.StepField | src/relion/cryolo_relion_it/cryolo_relion_it.py:1886-1895 | a `_col` line in a loop adds an empty column |
| CryoloRelionIt.AppendRowCells | src/relion/cryolo_relion_it/cryolo_relion_it.py:1905-1906 | one token appended to each column |
| CryoloRelionIt.AppendRowColumns | src/relion/cryolo_relion_it/cryolo_relion_it.py:1905-1906 | the row's tokens go to their columns, which stay equal length |
| CryoloRelionIt.StepRow | src/relion/cryolo_relion_it/cryolo_relion_it.py:1897-1906 | a row must have as many tokens as columns, else an assertion failure |
| CryoloRelionIt.StepKeepsLoopOk | src/relion/cryolo_relion_it/cryolo_relion_it.py:1859-1906 | every line keeps a loop's columns equal length |
| CryoloRelionIt.RunKeepsLoopOk | src/relion/cryolo_relion_it/cryolo_relion_it.py:1859-1906 | any run of lines read without error keeps a loop's columns equal length |
| CryoloRelionIt.LoadStarColumns | src/relion/cryolo_relion_it/cryolo_relion_it.py:1852-1908 | after any successfully read prefix of a STAR file, the loop still open at the end (when its column names are distinct) has columns of equal length, all empty until its first row |
| CryoloRelionIt.FirstJobLine | src/relion/cryolo_relion_it/cryolo_relion_it.py:1936-1942 | the first line with at least 3 tokens whose first is the name |
| CryoloRelionIt.FirstJobLineAt | src/relion/cryolo_relion_it/cryolo_relion_it.py:1936-1942 | a job line with no job line before it is the one found |
| CryoloRelionIt.GetJobName | src/relion/cryolo_relion_it/cryolo_relion_it.py:1931-1945 | the third token of that line, else None |
| CryoloRelionIt.DoneLineTokens | src/relion/cryolo_relion_it/cryolo_relion_it.py:1978 | a done-file line reads back as its job name and job |
| CryoloRelionIt.AddJobRemembers | src/relion/cryolo_relion_it/cryolo_relion_it.py:1948-1981 | after adding a job, `getJobName` finds it in the done file, and adding the same name again reports it as already present and changes nothing |
| CryoloRelionIt.AddJobCommand | src/relion/cryolo_relion_it/cryolo_relion_it.py:1948-1981 | the job name, the already-present flag and the new done lines are `AddJob`'s; the option string, each option terminated by `;`, exists only for a new job |
| CryoloRelionIt.Terminate | src/relion/cryolo_relion_it/cryolo_relion_it.py:1956-1958 | the `+=` loop puts the terminator after every item; the same code also stands at src/relion/cryolo_relion_it/cryolo_relion_it.py:1986-1988 |
| CryoloRelionIt.TerminatedJoin | src/relion/cryolo_relion_it/cryolo_relion_it.py:1957-1958 | terminated items are the join plus one terminator |
| CryoloRelionIt.SplitTerminated | src/relion/cryolo_relion_it/cryolo_relion_it.py:1957-1958 | splitting a terminated string gives the items and one empty tail |
| CryoloRelionIt.EvenUp | src/relion/cryolo_relion_it/cryolo_relion_it.py:2711-2714 | `n + n % 2` is even and is `n` or `n+1` |
| CryoloRelionIt.EvenUpIdempotent | src/relion/cryolo_relion_it/cryolo_relion_it.py:1411 | evening up twice is evening up once |
| CryoloRelionIt.BoxSize | src/relion/cryolo_relion_it/cryolo_relion_it.py:1407-1411 | for a real particle size (the quotient of diameter and pixel size), the least even integer at least 1.2 times it |
| CryoloRelionIt.Ceil | src/relion/cryolo_relion_it/cryolo_relion_it.py:1410 | `math.ceil`: the least integer not below its argument |
| CryoloRelionIt.PoppedSpec | src/relion/cryolo_relion_it/cryolo_relion_it.py:997-1005 | `update_from` keeps the attribute names and sets every existing non-dunder attribute the dict holds to the value it holds |
| CryoloRelionIt.RelionItOptions.constructor | src/relion/cryolo_relion_it/cryolo_relion_it.py:589-600 | the options start as the class's default attributes |
| CryoloRelionIt.PoppedSkipsDunder | src/relion/cryolo_relion_it/cryolo_relion_it.py:999-1001 | keys of the form `__x__` are never set |
| CryoloRelionIt.RelionItOptions.UpdateFrom | src/relion/cryolo_relion_it/cryolo_relion_it.py:988-1005 | the popitem loop computes `PoppedSpec`'s attributes and leaves the dict empty |

## Left out

- Threads, the lock and the pool of `Graph.traverse` and `Graph._follow` (src/relion/node/graph.py:246-426): visits run from a FIFO queue, one at a time, so interleavings are not modelled.
- The queue-based runtime in src/relion/pipeline/graph.py, decompnode.py, the zocalo wrapper, the GUI, `run_pipeline`, `WaitForJob`, `safe_load_star`, `print_options`, `find_split_job_output`, `Project`/`PipelineLock` and the CLI: orchestration and I/O outside the bookkeeping.
- The `relion.node.Node` base class is not part of this model. Graph nodes are arena nodes like `ProtoNode`. `_share_traffic`, `_can_append` and the propagate/escalate merging inside `Graph._follow` are not modelled.
- Graph traffic: `Graphs.Graph.Step` keeps the edge, called-node and fan-in bookkeeping but passes no traffic. The operation a node runs is the parameter `job`.
- `ProtoGraph` traversal operations: a node's own `__call__` is a parameter `op` of the traversal.
- `ProtoGraph.link_from_to`, `node_explore`, `remove_node` and `_check_connections` are not modelled, because they are outside the named operations.
- `Graph.strip`, `extend`, `link_from_to` and `remove_node` are not modelled. `remove_node` relies on `Node.unlink_from(use_name=True)`, which is not part of this model.
- `ProtoGraphs.ProtoGraph.Merge` requires that the graph's own node is not among the other graph's successors. It does not model merging a graph into itself.
- `ProtoGraphs.ProtoGraph.AddNode` and `ProtoGraphs.ProtoGraph.Extend` require that the graph's own node is not being added to its member list.
- `ProtoGraphs.ProtoGraph.Traverse` states only that the invariants hold and that calls, edges and completions only grow. It does not state which nodes end up called.
- `ProtoGraphs.ProtoGraph.Follow`: its recursion depth is bounded by fuel, and running out is a `RecursionError`. The same holds for `ProtoNodes.Arena.NodeEq` and `ProtoNodes.Arena.IsChild`.
- `Graphs.Graph.Run` states only that the invariants are kept and that the queue is drained. Which nodes run is stated per step by `Graphs.Graph.Step`.
- Node names are assumed unique wherever the source tests membership with the structural `==` of protonode.py:20-27. The model tests by identity instead, and `ProtoNodes.Arena.NodeEqUnique` shows the two coincide under that assumption. The members concerned follow, one per line.
- `ProtoNodes.Arena.IsChild`: reachability is by identity, where the source's `==` is structural.
- `ProtoNodes.Arena.LinkTo`: the "already linked" test of protonode.py:64 is by identity.
- `ProtoNodes.Arena.UnlinkFrom`: the test and the `list.remove` of protonode.py:76-77 are by identity.
- `ProtoGraphs.ProtoGraph.Eq` tests membership of the successors by identity.
- `ProtoGraphs.ProtoGraph.Index`: `list.index` (protograph.py:70) is by identity.
- `ProtoGraphs.ProtoGraph.FindOrigins`: `p not in child_nodes` (protograph.py:112) is by identity.
- `ProtoGraphs.ProtoGraph.Follow`: the member test `node not in self._node_list` (protograph.py:136) is by identity.
- `Graphs.Graph.Eq` compares members by identity, not by recursive structural `==`.
- `Graphs.Graph.Index`: the `list.index` of graph.py:127 is by identity.
- `Graphs.Graph.AddNode`: the `new_node not in self._node_list` test (graph.py:158) is by identity.
- `Graphs.Graph.Explore`: the `node not in explored` test (graph.py:151) is by identity.
- `ProcessNodes.ProcessNode.Eq` and `ProcessNodes.ProcessNode.EqSymmetric`: successors are compared by identity, where processnode.py:20-22 compares them with `ProcessNode.__eq__` itself.
- `Graphs.Graph.Relink` clears the start sentinel's successors with the corrected `Graphs.Graph.UnlinkSuccessors`, not with the loop as written at graph.py:165-166 (`Graphs.Graph.UnlinkStartAsWritten`). As written, a start node leading to `[a, b]` keeps `b` before rewiring; see Findings.
- `Graphs.Graph.AddNode` relinks through `Graphs.Graph.Relink`, so it uses the corrected unlink too.
- `Graphs.Graph.AddAll` adds nodes through `Graphs.Graph.AddNode`, so it uses the corrected unlink too.
- `Graphs.Graph.Merge` adds nodes through `Graphs.Graph.AddNode`, so it uses the corrected unlink too. It also requires the other graph to be a different object, so merging a graph into itself is not modelled.
- `Tables.SchemaOf` gives the CTF table the corrected column name `max_resolution`. As written (modeltables.py:203) the column is `max_resoltuion` and the value passed as `max_resolution` is lost; see Findings.
- `Tables.Table.Of` builds the CTF table from `Tables.SchemaOf`, so it has the corrected column too.
- `DBNodes.DBNode.Message` sends every unsent id, the corrected sweep. As written (dbnode.py:100-108), removing from the list being iterated skips the id after each one sent (`DBNodes.SweepAsWritten`); see Findings.
- `DBNodes.DBNode.Finish` answers with `DBNodes.DBNode.Message`, so it uses the corrected sweep too.
- `DBNodes.DBNode.Call` answers with `DBNodes.DBNode.Finish`, so it uses the corrected sweep too.
- `Env.Environment.Step`: the source calls `next()` on a list (src/relion/protonode/environment.py:58-63), which raises TypeError. The model reads the iterator as a cursor over the list, which evidently was intended.
- `Env.Escalate`: the source's `Escalate.__init__` builds an `Environment`, which builds another `Escalate`, without end (src/relion/protonode/environment.py:24-26, 38-42). The model's escalate store is a flat dict with a None default.
- The `_typeshed` import in environment.py (line 1) is not modelled.
- `DBGraph.message` (src/relion/dbmodel/dbgraph.py:25-29) calls `extend` with two arguments, a TypeError as soon as the graph has a member (with none it answers `[]`). It is not modelled.
- `DBGraphs.Items`: a dict result is a TypeError in the model, where `list.extend` takes the dict's keys in insertion order. The model's dicts are unordered maps, so that order cannot be stated. The members' `__call__` answers lists, so the case does not arise from `DBNode`s.
- `DBGraphs.FlattenedFails` and `DBGraphs.DBGraph.Call` inherit that dict case from `DBGraphs.Items`.
- `DBGraphs.DBGraph.constructor` takes no `auto_connect`: it defaults to False, and the `_check_connections` it would run is not modelled.
- `Graphs.Graph.constructor` takes no `auto_connect`. With it, graph.py:43-44 runs `_check_connections` (graph.py:99-106), which links every outside predecessor of a member to the graph; that is not modelled.
- `Graphs.Graph.constructor`: graph.py:28-30 makes the graph's own `_in` and `_completed` the start sentinel's lists, and its `_out` the end sentinel's. The model's graph node has lists of its own, so a link into the graph is not a link into start, and the graph's successors are not end's.
- `Graphs.Graph.AddNode` takes no `auto_connect`. The branch of graph.py:160-163 that links each outside predecessor of the new node to the graph is not modelled.
- `ProtoGraphs.ProtoGraph.AddNode` takes no `auto_connect`. The branch of protograph.py:87-90 that links each outside predecessor of the new node to the graph is not modelled.
- `DBNodes.DBNode.constructor` and `DBNodes.DBNode.SetForeignTable`: the field `foreignTable` stands for `environment["foreign_table"]` (dbnode.py:71), held by the node rather than looked up in its `Environment`. The model requires the node's tables to be distinct and the foreign table to be none of them, which every node built from fresh tables meets. A node whose foreign table is one of its own tables is not modelled.
- `DBNode.update_times(None)` (src/relion/dbmodel/dbnode.py:47-53) indexes with None, so that dead branch is not modelled.
- `DBNode.__call__`: `extra_options`, `message_constructor` and the particle diameter are parameters. The float diameter computation (src/relion/dbmodel/modeltables.py:357-362) is an opaque value.
- `Tables.Table`: tables are separate objects, but two nodes sharing one table object are not modelled.
- `Tables.CommonLeast`: the source picks `list(set)[0]`, whose order depends on hashing. The model picks the smallest common row.
- Timestamps (`end_time`, `_last_update`, `end_time_stamp`, `results_last_collected`) are integers, not `datetime` or floats.
- `class_distribution` is an integer key instead of a float.
- Class3D's `_get_init_model_num_particles` (src/relion/_parser/class3D.py:130-137, 181-200) has further problems:
  - it unpacks a bare `None` return;
  - it returns a single int where a pair is expected;
  - it reads the remainder file name and the data file.

  Only the class-token search and the count are modelled (`Class3Ds.InitModelParticles`).
- The `_load_job_directory` loops, the `parse_star_file`/gemmi reads, `glob`/`iterdir`, and the file reads in `_get_picker_job` are not modelled. Stems, column values and particle file names are inputs, and file existence is the parameter `present`.
- `Class2Ds.ParseInt` accepts digit strings only. Python's `int()` also allows signs, surrounding whitespace and underscores.
- `Values.IsNumeric` accepts ASCII digits only, where `str.isnumeric()` also accepts other Unicode digits and numerals, so the iteration-number selection of `_final_data_and_model` ignores stems written with them.
- `Values.Value`: equality of values is structural, so Python's `True == 1` does not hold between a `Bool` and an `Int`.
- `MotionCorrs.ConstructDictKeys`: the dict is a `map`, so its key order is not kept.
- `MotionCorr.find_values`, `jobs`, the `set_*` methods and `parse_star_file` read files, so they are not modelled. Directory existence is the parameter `isDir`.
- `PurePosixPath` joining in the parsers: `basepath / key` is plain string concatenation with `/`, without normalising. The printed form of `ProcessNode._path` is normalised, as `ProcessNodes.PosixStr` states.
- `CryoloRelionIt.BoxSize` computes `ceil(1.2 * size)` in exact real arithmetic, as `ceil(6 * size / 5)`. It does not model float rounding.
- `CryoloRelionIt.AddJobCommand`: the pipeline subprocess and the reading of the new job's name are left out, and the new job's name is a parameter. Done-file lines are assumed to end in a newline.
- `RelionItOptions.update_from`: `hasattr` is seen only through the attribute map. Dict order is the order of the association list.
- `load_star`: `current_colnames` before any `loop_` is an empty list rather than None. File reading is left out, and the lines are the input.
- Python `print` calls and the logger are left out.

## Findings

| source | as written | input that shows it | evidently intended | confidence | as-written member | corrected member |
|---|---|---|---|---|---|---|
| src/relion/node/graph.py:165-166 | `for n in self._start_node: self._start_node.unlink_from(n)` removes from the list it iterates | a start node with successors `[a, b]`: after the loop `b` is still a successor | every successor of the start node is unlinked before rewiring | not executed | Graphs.StartKeepsSecond | Graphs.Graph.UnlinkSuccessors |
| src/relion/dbmodel/dbnode.py:100-108 | `for pid in self._unsent[i]: ... self._unsent[i].remove(pid)` removes from the list it iterates | unsent ids `[1, 2]`: one call sends 1 and leaves 2 unsent | every unsent id is sent and moved in one call | not executed | DBNodes.MessageSkipsAsWritten | DBNodes.DBNode.Message |
| src/relion/dbmodel/modeltables.py:203 | the CTF table's column is spelt `max_resoltuion`, while insert passes `max_resolution` (line 333) | a CTF insert with `max_resolution=3`: the value is not stored in any column | a `max_resolution` column that stores it | not executed | Tables.CtfMaxResolutionLostAsWritten | Tables.CtfMaxResolutionStored |
