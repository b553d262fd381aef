# Distributed application control plane — a Dafny model

This project models the control plane of a distributed streaming application framework. An
application is a graph of fragments; each fragment is a graph of operators. A driver process
collects the connections between fragments, waits for a fragment scheduler to place the
fragments on worker processes, negotiates network ports with the workers and asks each worker
to launch its fragments. It then follows the workers until they finish or fail.

The model follows the source file by file:

- `flow_graph.dfy` (module `Graphs`): the generic flow graph used both for operators inside a
  fragment and for fragments inside an application.
  - A `FlowGraph` class holds the nodes in insertion order, the name index, and the successor
    and predecessor maps.
  - Each edge has one shared port map: a map from an upstream label to the set of downstream
    labels it feeds. It is kept in a single `ports` entry per edge, so both adjacency entries of
    an edge always see the same object.
  - The methods are proved against pure functions (`Registering`, `Connecting`, `Flowing`) on a
    `Graph` value. Lemmas show that these functions keep the graph invariant: the predecessor
    map is the transpose of the successor map, names are unique, and the name index matches the
    node list.
- `fragment.dfy` (module `Fragments`): a fragment with its lazily created graph, executor and
  scheduler.
  - Its name rule: "all" is reserved but still set.
  - `compose_graph`, which composes at most once.
  - Configuration-key splitting.
  - The port-pair resolution of `add_flow`, with every failure path.
- `application.dfy` (module `Applications`):
  - the fragment graph and fragment-level `add_flow`;
  - the environment decision functions (scheduler type, stop-on-deadlock, integer settings);
  - the rule that picks and configures the scheduler of every fragment.
- `driver_config.dfy` (module `DriverConfig`): the driver's pure decisions.
  - Boolean environment switches.
  - The memory-size parser.
  - The configuration check with driver-address normalisation.
  - The resource-requirement cascade from application to fragments, including the YAML values whose reading throws and ends a document.
- `port_names.dfy` (module `PortNames`): `update_port_names`, which completes port-less labels
  of a fragment edge's port map, in place.
- `connections.dfy`, `collect.dfy`, `visit.dfy` (modules `Connections`, `Collecting`,
  `Visiting`): `collect_connections` and `correct_connection_map`.
  - The visiting order: roots first, then the cycle breaking.
  - Each visited edge's label correction.
  - Port indices handed out one per label pair.
  - The four connection tables.
  - Rewriting the placeholder indices into real ports and addresses.
- `negotiation.dfy`, `schedule.dfy` (modules `Negotiation`, `Scheduling`): the body of
  `check_fragment_schedule` once a schedule exists.
  - Cancelling idle workers.
  - Readdressing the connection indices.
  - Grouping fragments by worker.
  - Negotiating ports worker by worker.
  - Launching.
- `server.dfy`, `messages.dfy` (modules `DriverServer`, `Messages`): the registry of worker
  connections (`AppDriverServer`) and the driver's first-in first-out message queue.
- `driver.dfy` (module `Driver`): the `AppDriver` class, whose methods change its tables, its
  status, the server and the graph in place, and which are proved against the functions and
  predicates above.
  - `collect_connections`.
  - `check_fragment_schedule` and `check_worker_execution`.
  - `terminate_all_workers`.
  - `submit_message` and `process_message_queue`.

Things outside the core are parameters of the operations that use them:
- worker RPCs (`ip_address`, `available_ports`, `fragment_execution`), the `Remote` datatype;
- the scheduler's answer;
- the operator label parser;
- the `add_receivers` hook;
- `std::stod`;
- environment variables, as optional strings.

A worker's `terminate_worker` request is recorded in the server's `sent` log, so contracts can
say which workers were asked to stop, with which code, in which order.

## Model

| member | source | states |
|---|---|---|
| Graphs.InsertAll | src/core/graphs/flow_graph.cpp:100 | inserting a port map's entries keeps a label already present with its old destinations and adds each new label with its own |
| Graphs.InsertEntries | src/core/graphs/flow_graph.cpp:107-109 | the entry-by-entry insertion loop computes exactly `InsertAll` |
| Graphs.IndexOfMember | src/core/graphs/flow_graph.cpp:53-54 | with unique names every registered node is found in the name map under its own name |
| Graphs.MemberOfIndex | src/core/graphs/flow_graph.cpp:54 | every entry of the name map is a registered node carrying that name |
| Graphs.UniqueNamesNoDuplicates | src/core/graphs/flow_graph.cpp:44-53 | the duplicate-name rule means no node is listed twice in the ordered node list |
| Graphs.AppendFresh | src/core/graphs/flow_graph.cpp:51-54 | appending a node with a fresh name keeps names unique and extends the name map by that node |
| Graphs.InvWellFormed | src/core/graphs/flow_graph.cpp:51-52 | under the invariant every node has successor and predecessor entries and every edge a port map |
| Graphs.AddIsolated | src/core/graphs/flow_graph.cpp:51-52 | a new node with empty neighbour maps keeps succ and pred each other's transpose and adds no edge |
| Graphs.AddEdge | src/core/graphs/flow_graph.cpp:110-111 | recording u -> v in both succ and pred with one port map keeps them transposed and adds exactly that edge |
| Graphs.UpdatePorts | src/core/graphs/flow_graph.cpp:98-103 | replacing the shared port map of an existing edge keeps the maps linked |
| Graphs.Registering | src/core/graphs/flow_graph.cpp:38-56 | registration keeps the graph well formed, never drops a node and, when it passes, leaves the node registered |
| Graphs.RegisteringKeepsInv | src/core/graphs/flow_graph.cpp:38-56 | registration keeps the invariant, passes exactly for a node already present or with a free name, fails with kDuplicateName otherwise and then changes nothing, and appends an admitted new node |
| Graphs.RegisteringNode | src/core/graphs/flow_graph.cpp:39-55 | a node already present is a no-op; a fresh node is appended last, indexed under its name and has no neighbours |
| Graphs.RegisteringKeepsEdges | src/core/graphs/flow_graph.cpp:38-56 | registration adds or changes no edge and no port map |
| Graphs.Transpose | src/core/graphs/flow_graph.cpp:110-111 | u -> v is in succ exactly when u is in pred of v, and both ends are graph nodes |
| Graphs.Connecting | src/core/graphs/flow_graph.cpp:96-112 | the edge step keeps the graph well formed |
| Graphs.ConnectingKeepsInv | src/core/graphs/flow_graph.cpp:96-112 | the edge step keeps the invariant and the node list |
| Graphs.ConnectingEdges | src/core/graphs/flow_graph.cpp:96-112 | the edge step adds exactly u -> v, merges the map into the existing one (or an empty new one) without overwriting labels, and leaves every other edge's map |
| Graphs.Flowing | src/core/graphs/flow_graph.cpp:59-113 | add_flow keeps the graph well formed |
| Graphs.FlowingKeepsInv | src/core/graphs/flow_graph.cpp:59-113 | add_flow keeps the invariant |
| Graphs.FlowingOutcome | src/core/graphs/flow_graph.cpp:61-94 | add_flow registers u then v, stops silently at a null endpoint, throws kDuplicateName at the first taken name, and leaves registered exactly the nodes reached |
| Graphs.FlowingEdges | src/core/graphs/flow_graph.cpp:96-112 | add_flow adds u -> v exactly when both ends got registered and no other edge, inserts the map keeping existing labels, and leaves every other edge's map |
| Graphs.FlowGraph.constructor | src/core/graphs/flow_graph.cpp:33-35 | a new graph is valid and empty |
| Graphs.FlowGraph.Register | src/core/graphs/flow_graph.cpp:38-56 | the class's registration keeps the invariant and its new state and result are `Registering` of the old state |
| Graphs.FlowGraph.AddNode | src/core/graphs/flow_graph.cpp:38-56 | a null node is logged and changes nothing; otherwise the new state is that of the registration step |
| Graphs.FlowGraph.Connect | src/core/graphs/flow_graph.cpp:96-112 | the new state is `Connecting` of the old state, invariant kept |
| Graphs.FlowGraph.AddFlow | src/core/graphs/flow_graph.cpp:59-113 | the new state and result are `Flowing` of the old state, invariant kept |
| Graphs.FlowGraph.GetPortMap | src/core/graphs/flow_graph.cpp:116-123 | a port map is returned exactly when the edge exists, and it is that edge's shared map |
| Graphs.FlowGraph.SetPortMap | src/core/graphs/flow_graph.cpp:102-103 | writing through the shared pointer changes that edge's map, seen from succ and pred alike, and nothing else |
| Graphs.FlowGraph.IsRoot | src/core/graphs/flow_graph.cpp:126-131 | true exactly when no edge enters the node |
| Graphs.FlowGraph.IsLeaf | src/core/graphs/flow_graph.cpp:134-138 | true exactly when no edge leaves the node |
| Graphs.FlowGraph.GetRootNodes | src/core/graphs/flow_graph.cpp:141-148 | exactly the nodes without predecessors, each once |
| Graphs.FlowGraph.GetNodes | src/core/graphs/flow_graph.cpp:151-157 | the nodes in insertion order, each once, and exactly the registered ones |
| Graphs.FlowGraph.GetNextNodes | src/core/graphs/flow_graph.cpp:160-168 | exactly the successors, each once; nothing for an unknown node |
| Graphs.FlowGraph.GetPreviousNodes | src/core/graphs/flow_graph.cpp:171-179 | exactly the predecessors, each once; nothing for an unknown node |
| Graphs.FlowGraph.FindNodeWhere | src/core/graphs/flow_graph.cpp:182-188 | a node satisfying the predicate, or nothing exactly when none does |
| Graphs.FlowGraph.FindNode | src/core/graphs/flow_graph.cpp:191-196 | the node itself exactly when it belongs to the graph |
| Graphs.FlowGraph.FindNodeByName | src/core/graphs/flow_graph.cpp:199-203 | a registered node with that name, or nothing exactly when no node has it |
| Strings.Split | src/core/fragment.cpp:159-168 | a dotted key always has at least one part |
| Strings.JoinSplit | src/core/fragment.cpp:159-168 | splitting loses nothing: the parts joined with '.' give the key back |
| Strings.SplitParts | src/core/fragment.cpp:159-168 | no part contains '.', and a key without a dot is a single part |
| Fragments.ConfigKeyParts | src/core/fragment.cpp:159-168 | the position loop of `from_config` computes exactly the split of the key |
| Strings.SortedElements | src/core/fragment.cpp:341 | the range-for over a set of labels walks exactly the sorted elements |
| Strings.FindFirstOf | src/core/fragment.cpp:163 | `find_first_of` returns the first position at or after the start holding one of the characters, or npos exactly when there is none |
| Fragments.GroupRoundTrip | src/core/fragment.cpp:264-271 | grouping the pairs by source label loses and adds nothing, and every label gets at least one destination |
| Fragments.GroupInsert | src/core/fragment.cpp:266-270 | adding one pair adds its destination under its source label |
| Fragments.GroupPairs | src/core/fragment.cpp:264-271 | the conversion loop builds exactly the grouped port map |
| Fragments.FirstMissing | src/core/fragment.cpp:286-287 | the first label not among the ports, or none exactly when all are ports |
| Fragments.CheckOutputs | src/core/fragment.cpp:275-322 | the output-side loop computes exactly the output resolution |
| Fragments.ResolveDestinations | src/core/fragment.cpp:341-408 | the inner input loop computes exactly the label resolution; it reports calling the receivers hook only when the downstream operator has receivers parameters, and a receivers failure always comes from such a call |
| Fragments.ResolveSources | src/core/fragment.cpp:324-417 | the outer input loop computes exactly the input resolution, with the same report of calls to the receivers hook |
| Fragments.EmptyPairsRule | src/core/fragment.cpp:237-259 | without pairs, several outputs or several inputs are refused; otherwise the pair ("", "") is assumed |
| Fragments.DefaultOutputLabel | src/core/fragment.cpp:288-294 | a lone "" source label names the single output port and keeps its destinations |
| Fragments.DefaultInputLabel | src/core/fragment.cpp:343-346 | a lone "" destination names the single input port |
| Fragments.SingleOutputCount | src/core/fragment.cpp:275-284 | with one output port, a source-label count other than one is refused with that count |
| Fragments.UnknownOutputRefused | src/core/fragment.cpp:286-321 | a source label that is no output port (other than the lone "") is refused, as "no output ports" when there are none |
| Fragments.FlowSound | src/core/fragment.cpp:219-420 | an accepted flow connects only existing output and input ports, counting the ports the receivers hook added |
| Fragments.FlowComplete | src/core/fragment.cpp:219-420 | pairs that name existing ports pass unchanged, as the grouped port map, with no port added |
| Fragments.SinglePair | src/core/fragment.cpp:264-294 | a single pair whose source is an output port passes the output side |
| Fragments.ReceiversDeferred | src/core/fragment.cpp:349-378 | a destination naming a receivers parameter is replaced by what the hook supplies, and the flow is refused when the hook fails |
| Fragments.Fragment.constructor | src/core/fragment.cpp:128-145 | a new fragment has no graph, executor or scheduler and is not composed |
| Fragments.Fragment.SetName | src/core/fragment.cpp:41-47 | the name is set even when it is the reserved "all", which is reported; nothing else changes |
| Fragments.Fragment.ComposeGraph | src/core/fragment.cpp:446-453 | `compose()` runs once: the first call runs it, later calls are skipped |
| Fragments.Fragment.GetGraph | src/core/fragment.cpp:128-131 | the operator graph is created empty on first use and the same graph is returned afterwards |
| Fragments.Fragment.GetExecutor | src/core/fragment.cpp:133-136 | the executor exists afterwards; nothing else changes |
| Fragments.Fragment.GetScheduler | src/core/fragment.cpp:142-145 | the scheduler set is returned, or a new greedy scheduler when none was |
| Fragments.Fragment.SetScheduler | src/core/fragment.cpp:138-140 | the scheduler is replaced; nothing else changes |
| Fragments.Fragment.AddOperator | src/core/fragment.cpp:210-212 | the operator graph changes exactly as registration says |
| Fragments.Fragment.AddFlow | src/core/fragment.cpp:219-420 | a null spec or any resolution failure leaves the graph unchanged; otherwise the graph's add_flow runs with the resolved port map; the executor, once created, stays; it is created only when the downstream operator has receivers parameters, and always when adding receivers failed (`executor().add_receivers`, line 368) |
| Strings.FindFirstNotOf | src/core/app_driver.cpp:117 | the position found is the first at or after the start outside the character set, and no position is found exactly when every character from there is in the set |
| Strings.NatToDigits | src/core/application.cpp:253 | the decimal spelling of a number is a non-empty string of digits |
| Strings.DecimalRoundTrip | src/core/application.cpp:253 | reading back the decimal spelling of a number gives the number |
| Applications.Application.constructor | src/core/application.cpp:104 | a new application has no fragment graph yet |
| Applications.Application.FragmentGraph | src/core/application.cpp:153-156 | the fragment graph is created empty on first use and the same graph is returned afterwards |
| Applications.Application.AddFragment | src/core/application.cpp:158-160 | the fragment graph changes exactly as registration says, so a duplicate name fails with kDuplicateName |
| Applications.Application.AddFlow | src/core/application.cpp:162-186 | an empty pair set is refused with nothing created or changed; otherwise the grouped pairs go to the graph's add_flow unchecked |
| Applications.FragmentFlowPorts | src/core/application.cpp:171-185 | a new fragment edge stores exactly the given pairs: a pair is in its port map exactly when it was given |
| Applications.FlowStoresPortMap | src/core/application.cpp:185 | a new edge carries exactly the port map given with it |
| Applications.SchedulerTypeEnvMeaning | src/core/application.cpp:223-237 | "greedy" and "multithread" give their schedulers, unset or empty gives the default, anything else is an invalid argument |
| Applications.StopOnDeadlockEnvAlwaysTrue | src/core/application.cpp:239-247 | any set value, "false" included, yields true; unset or empty yields not-found |
| Applications.ConvertDecimal | src/core/application.cpp:253 | a decimal spelling followed by a non-digit converts to its value, or out of range outside int64 |
| Applications.StollUnsigned | src/core/application.cpp:253 | text starting with a digit is converted as it stands, and a minus sign negates it |
| Applications.StollReadsDecimal | src/core/application.cpp:253 | an in-range decimal spelling reads back as the number whatever non-digit follows |
| Applications.StollReadsNegative | src/core/application.cpp:253 | the same with a minus sign, down to the least int64 |
| Applications.StollOutOfRange | src/core/application.cpp:257-260 | a number above the int64 maximum is out of range |
| Applications.StollNoDigits | src/core/application.cpp:254-256 | text that after white space and sign has no digit is no number |
| Applications.Int64EnvMeaning | src/core/application.cpp:249-282 | an integer variable is not-found exactly when unset or empty, an invalid argument exactly when it does not convert, and otherwise an int64 value |
| Applications.Int64EnvReadsTimeout | src/core/application.cpp:249-265 | the variable "5000" reads as 5000 |
| Applications.LastArg | src/core/application.cpp:347-385 | the value last given to an argument exists exactly when some argument has that name |
| Applications.LastArgAppend | src/core/application.cpp:374-385 | later arguments win over earlier ones |
| Applications.ForcedArgsLast | src/core/application.cpp:374-385 | the environment overrides give each variable that was read its own value and do not touch the worker count |
| Applications.CommonArgsLast | src/core/application.cpp:349-370 | a new scheduler gets the chosen deadlock timeout, a max duration only when it is not negative, and no worker count from these arguments |
| Applications.ChosenKind | src/core/application.cpp:324-372 | only a greedy request gives a greedy scheduler; every other mode ends multi-threaded |
| Applications.ChosenKeepsMultiThread | src/core/application.cpp:332-348 | in default mode an existing multi-thread scheduler is kept with its arguments, then the timeout and the overrides |
| Applications.ChosenTimeout | src/core/application.cpp:302-385 | every scheduler, kept or new, ends with the chosen deadlock timeout as the last value of that argument |
| Applications.ChosenWorkers | src/core/application.cpp:358-371 | a new multi-thread scheduler gets min(operators, processors) worker threads and the chosen max duration, present only when not negative or set by the environment |
| Applications.SetSchedulerForFragments | src/core/application.cpp:302-388 | every target fragment is rescheduled as `Rescheduled` says, each exactly once |
| Applications.Reschedule | src/core/application.cpp:327-387 | a fragment gets the scheduler chosen from its previous one, the environment policy and its operator count; only the multi-thread choice asks for the graph, which creates an empty one when there was none (fragment.cpp:128-131); the operators and everything else about the fragment are unchanged |
| DriverConfig.Lower | src/core/app_driver.cpp:61-63 | lower-casing maps every character through `tolower` and keeps the length |
| DriverConfig.LowerIdempotent | src/core/app_driver.cpp:61-63 | lower-casing twice changes nothing more |
| DriverConfig.GetBoolEnvVarMeaning | src/core/app_driver.cpp:57-68 | "true", "1" and "on" in any case switch the variable on; any other value, or none, gives the default |
| DriverConfig.Stoull | src/core/app_driver.cpp:135 | `stoull` of a digit string is a 64-bit value, or fails |
| DriverConfig.RealToUInt64 | src/core/app_driver.cpp:133 | the conversion of a double to `uint64_t` lands in the 64-bit range |
| DriverConfig.ParseMemorySize | src/core/app_driver.cpp:114-151 | the parsed size is always a 64-bit value |
| DriverConfig.ParseMemorySizeUnits | src/core/app_driver.cpp:114-151 | "<n>Mi" is n mebibytes and "<n>Gi" n gibibytes, in either letter case, modulo 2^64; a number `stoull` cannot hold gives 0 |
| DriverConfig.ParseMemorySizeBare | src/core/app_driver.cpp:114-151 | a bare number is read as mebibytes, modulo 2^64 |
| DriverConfig.ParseMemorySizeTrailing | src/core/app_driver.cpp:121-123 | anything after the "i" of the unit gives 0 |
| DriverConfig.ParseMemorySizeBadUnit | src/core/app_driver.cpp:121-126 | a character that is neither a digit, a dot nor a unit letter gives 0 |
| DriverConfig.ParseMemorySizeDecimal | src/core/app_driver.cpp:126-128 | a decimal needs exactly one digit after the dot and then a unit; otherwise 0 |
| DriverConfig.ParseMemorySizeWraps | src/core/app_driver.cpp:135-142 | a multiple of 2^44 mebibytes wraps to 0 bytes in the 64-bit arithmetic |
| DriverConfig.NormalizeAddressCases | src/core/app_driver.cpp:719-734 | no address gives "0.0.0.0:<default port>", a host alone gets the default port, a port alone gets host 0.0.0.0, a full address is kept, and every result has a host before its first ':' |
| DriverConfig.NormalizeAddressIdempotent | src/core/app_driver.cpp:719-734 | normalising an address twice changes nothing more |
| DriverConfig.CheckConfiguration | src/core/app_driver.cpp:683-735 | the check fails exactly without an application or with both fragments and operators; otherwise it only switches services on, keeps the run options and leaves an address with a host |
| DriverConfig.CheckConfigurationFresh | src/core/app_driver.cpp:704-717 | on a fresh driver the health check runs when the variable or a driver or worker asks for it, the driver and worker services are needed exactly when asked for, and the run is local exactly when neither is |
| DriverConfig.CheckConfigurationIdempotent | src/core/app_driver.cpp:683-735 | checking again with what the first check left changes nothing |
| DriverConfig.ParseRequirementCascade | src/core/app_driver.cpp:794-826 | reading a block throws exactly when one of its memory values is not a scalar; otherwise a value the block leaves out is inherited from the base, one it gives replaces it, memory strings go through the parser, and an empty block only renames the base |
| DriverConfig.FragmentOverrides | src/core/app_driver.cpp:759-778 | the per-fragment overrides keep the application requirement and only append; the fragments marked covered are exactly those the appended requirements are for, and those are all fragments of the graph |
| DriverConfig.OverridesStopAtThrow | src/core/app_driver.cpp:761-778 | a key that is not a scalar, or a known fragment's block that throws, ends the block: the entries after it are never read and the requirements added before it stay |
| DriverConfig.CascadeDocuments | src/core/app_driver.cpp:750-779 | going through the documents only appends requirements, all for fragments of the graph, and marks covered exactly the fragments they are for |
| DriverConfig.ApplyOverrides | src/core/app_driver.cpp:761-775 | the loop over one block's fragment entries computes exactly the overrides |
| DriverConfig.InheritRemaining | src/core/app_driver.cpp:782-786 | every fragment left over gets the application requirement under its own name, once each |
| DriverConfig.CollectResourceRequirements | src/core/app_driver.cpp:737-787 | the explicit requirements come first in document order, then one inherited requirement for each fragment that had no block of its own; every fragment of the graph gets a requirement and no requirement is for anything else |
| PortNames.UpdatePortNames | src/core/app_driver.cpp:380-514 | the in-place correction computes exactly the verdict and the port map of `Corrected` |
| PortNames.RenameAllKeys | src/core/app_driver.cpp:437-441 | moving each upstream label's destinations to its corrected label, in order, computes exactly the renaming |
| PortNames.CorrectAllTargets | src/core/app_driver.cpp:443-512 | the downstream pass over the upstream labels computes exactly `CorrectTargets` |
| PortNames.CollectSourceRenames | src/core/app_driver.cpp:385-435 | the upstream scan computes exactly the renamings, or the first failure |
| PortNames.CollectTargetRenames | src/core/app_driver.cpp:447-505 | the downstream scan of one destination set computes exactly its renamings, or the first failure |
| PortNames.RelabelAll | src/core/app_driver.cpp:507-510 | replacing each destination by its corrected form computes exactly the relabelling |
| PortNames.SourceRenamesVerdict | src/core/app_driver.cpp:385-435 | the upstream pass fails exactly when some upstream label names an unknown operator or neither an output nor the only one |
| PortNames.SourceRenamesShape | src/core/app_driver.cpp:398-407 | a successful upstream pass completes only port-less labels, each with its operator's only output, and every other label already names an output |
| PortNames.RenameKeysSound | src/core/app_driver.cpp:437-441 | after the renaming every upstream label names an output port |
| PortNames.TargetRenamesVerdict | src/core/app_driver.cpp:447-505 | the downstream pass over one set fails exactly when some label is unresolvable |
| PortNames.TargetRenamesShape | src/core/app_driver.cpp:457-466 | a successful downstream pass completes only port-less labels, each with its operator's only input, and every other label names an input or a receivers parameter |
| PortNames.RenameLabelsSound | src/core/app_driver.cpp:507-510 | after relabelling every destination names an input or a receivers parameter |
| PortNames.FirstKeyVerdict | src/core/app_driver.cpp:445-505 | the destinations of the first label visited are all resolvable, or the pass fails on them |
| PortNames.CorrectTargetsVerdict | src/core/app_driver.cpp:443-512 | the downstream pass succeeds exactly when every destination of every visited label is resolvable |
| PortNames.CorrectTargetsSound | src/core/app_driver.cpp:443-512 | after a successful downstream pass every destination names an input or a receivers parameter |
| PortNames.UpdatePortNamesVerdict | src/core/app_driver.cpp:380-514 | an unresolvable upstream label fails the correction with the map untouched; resolvable labels throughout make it succeed; success means every upstream label was resolvable |
| PortNames.SourcePassSound | src/core/app_driver.cpp:385-441 | after a successful upstream pass every upstream label names an output port |
| PortNames.UpdatePortNamesSound | src/core/app_driver.cpp:380-514 | a successful correction leaves every upstream label naming an output port and every downstream label an input port or a receivers parameter |
| PortNames.RenameLabelsKnown | src/core/app_driver.cpp:507-510 | completing downstream labels keeps each on a known operator |
| PortNames.CorrectTargetsKnown | src/core/app_driver.cpp:443-512 | the downstream pass, finished or stopped, leaves every downstream label on a known operator |
| PortNames.CorrectedKnown | src/core/app_driver.cpp:380-514 | whatever the verdict, the correction leaves a map it can be run on again |
| PortNames.CompletedLabelReplacesExisting | src/core/app_driver.cpp:437-441 | a port-less label completed onto a label already present replaces that label's destinations, losing them, and the correction still reports success |
| PortNames.ExampleKeys | src/core/app_driver.cpp:388 | the labels "a" and "a.out" are visited in that order |
| PortNames.ExampleTargetsKnown | src/core/app_driver.cpp:443-452 | a port map into operator `b` with inputs `x` and `y` names only known operators downstream |
| PortNames.ExampleSourceRenames | src/core/app_driver.cpp:385-441 | the port-less label "a" of an operator whose only output is `out` is completed to "a.out", and "a.out" is kept |
| PortNames.ExampleTargetPass | src/core/app_driver.cpp:443-512 | a map whose downstream labels are complete passes the downstream pass unchanged |
| Connections.LedgerIndices | src/core/app_driver.cpp:635-636 | index i is taken exactly by the i-th link, with port -1 and the receiving fragment's name as address |
| Connections.LedgerReceivers | src/core/app_driver.cpp:626-634 | a fragment's receiver list holds, in ascending index order, one (index, -1) entry per link into it and nothing else |
| Connections.LedgerItems | src/core/app_driver.cpp:612-640 | a fragment's item list holds the sending item of every link out of it and the receiving item of every link into it, each under the link's index, and nothing else |
| Connections.LedgerReceiverNames | src/core/app_driver.cpp:626-634 | recording links into fragments of the graph lists receivers only for fragments of the graph |
| Connections.KeyLinks | src/core/app_driver.cpp:611-643 | an upstream label yields one link per destination |
| Connections.KeyLinksSpec | src/core/app_driver.cpp:611-643 | the links of one upstream label are exactly its pairs, none twice |
| Connections.MapLinksSpec | src/core/app_driver.cpp:609-644 | the links of a port map are one per upstream label and destination, none twice |
| Connections.EdgeLinksSpec | src/core/app_driver.cpp:609-644 | the links of an edge are exactly the pairs of its port map, each once |
| Connections.AllLinksSpec | src/core/app_driver.cpp:592-645 | the links of distinct edges are exactly the pairs of their port maps, none twice |
| Connections.CorrectedItem | src/core/app_driver.cpp:655-678 | correcting an item keeps its name, direction and number of arguments |
| Connections.CorrectedMap | src/core/app_driver.cpp:653-681 | correction keeps the fragments and the length of each item list |
| Connections.PassPorts | src/core/app_driver.cpp:657-670 | every "port" argument gets the port of its index, read through `operator[]` (a missing index is added as 0); a non-integer port stops the pass |
| Connections.PassAddresses | src/core/app_driver.cpp:671-677 | every address argument gets the address of the item's last port index, read through `operator[]` |
| Connections.CorrectItem | src/core/app_driver.cpp:655-678 | one item's correction is exactly the corrected item when its ports are integers and fails otherwise; the index tables only gain default entries |
| Connections.CorrectList | src/core/app_driver.cpp:655-679 | a fragment's items are corrected in order, stopping at the first non-integer port |
| Connections.CorrectTables | src/core/app_driver.cpp:653-681 | the correction succeeds exactly when every port holds an integer, and then every item reads its index's port and address; the fragments and receivers stay and the index tables only gain default entries |
| Connections.CorrectedEndpoints | src/core/app_driver.cpp:612-624 | after correction a sending item addresses the receiver's address and port of its index and the receiving item listens on them |
| Connections.LedgerPortsAreInts | src/core/app_driver.cpp:619-624 | the items collection records always hold integer ports, so their correction cannot fail |
| Connections.CorrectedFrom | src/core/app_driver.cpp:653-681 | every corrected item comes from an item held before |
| Connections.CorrectedLedger | src/core/app_driver.cpp:612-681 | after collection and correction both ends of every link carry the address and port of that link's index |
| Connections.CorrectedLink | src/core/app_driver.cpp:612-681 | the same for one link whose two items are held |
| Collecting.Into | src/core/app_driver.cpp:590-592 | one edge per predecessor, in order, each into the visited fragment, and none twice when the predecessors are distinct |
| Collecting.MappedInto | src/core/app_driver.cpp:594-599 | the edges into a fragment from its predecessors all have port maps |
| Collecting.IntoMembers | src/core/app_driver.cpp:590-592 | an edge is gone through for a fragment exactly when it comes from one of its predecessors |
| Collecting.Collect | src/core/app_driver.cpp:592-647 | the collection over the edges keeps the set of edges with port maps |
| Collecting.FirstFailure | src/core/app_driver.cpp:603-608 | every edge before the position has its port names corrected, and the edge at it, if any, fails |
| Collecting.Rest | src/core/app_driver.cpp:592-647 | the first edge and the rest are apart, and correcting the first leaves the rest's maps alone |
| Collecting.CollectStops | src/core/app_driver.cpp:603-608 | the collection reports success exactly when no edge's port names fail to correct |
| Collecting.CollectFixes | src/core/app_driver.cpp:600-603 | the edges tried, up to and including a failing one, carry their corrected port maps, written in place; every other edge keeps its own |
| Collecting.CollectRecords | src/core/app_driver.cpp:610-646 | the links recorded are exactly those of the edges before the first failure, read from their corrected port maps |
| Visiting.Select | src/core/app_driver.cpp:544-551 | exactly the fragments with (or without) predecessors, in `get_nodes` order, each once |
| Visiting.ScheduleSpec | src/core/app_driver.cpp:544-586 | every fragment is visited exactly once |
| Visiting.ScheduleRootsFirst | src/core/app_driver.cpp:544-586 | the roots are visited first, and every fragment after them has a predecessor |
| Visiting.GroupedSpec | src/core/app_driver.cpp:586-592 | the edges gone through while visiting distinct fragments are distinct and are exactly the edges into the visited fragments |
| Visiting.ScheduleEdges | src/core/app_driver.cpp:544-647 | a whole visit goes through every edge of the fragment graph exactly once |
| Visiting.QueuedFacts | src/core/app_driver.cpp:556-586 | the work list state gives distinct visits that form a prefix of the visiting order |
| Visiting.QueuedPop | src/core/app_driver.cpp:580-586 | the fragment at the front of the work list has not been visited, so visiting it keeps the state |
| Visiting.QueuedStuck | src/core/app_driver.cpp:557-566 | a dry work list with fragments left means the cycle breaking has not happened, the roots are visited and some fragment has a predecessor |
| Visiting.QueuedRefill | src/core/app_driver.cpp:567-577 | the cycle breaking puts exactly the fragments with predecessors on the work list, in order, and zeroes every in-degree |
| Visiting.QueuedDone | src/core/app_driver.cpp:557-561 | a dry work list with every fragment visited means the visits are the whole visiting order |
| Negotiation.IndicesOf | src/core/app_driver.cpp:923 | one index per receiver entry |
| Negotiation.PortsOf | src/core/app_driver.cpp:923 | one port per receiver entry |
| Negotiation.AssignLookup | src/core/app_driver.cpp:925 | after the writes an index is in the table exactly when it was before or some entry writes it; an entry not overwritten later gives its index its port; an index no entry writes keeps its old port |
| Negotiation.DemandEntries | src/core/app_driver.cpp:892-895 | when the connector counts agree with the receiver lists, a worker needs exactly one port per receiver entry of its fragments |
| Negotiation.PortDemand | src/core/app_driver.cpp:892-895 | the summing loop computes the total connector count of the worker's fragments, an uncounted fragment adding none |
| Negotiation.ConnectorCounts | src/core/app_driver.cpp:868-874 | a fragment is counted exactly when it is a node of the graph and has a receiver list, and its count is that list's length |
| Negotiation.AssignFragment | src/core/app_driver.cpp:922-928 | a fragment's receiver entries keep their indices and take the next ports in order, the running index moves past them, every entry's index is written into the table, and other fragments' lists are untouched |
| Negotiation.AssignNext | src/core/app_driver.cpp:921-929 | one turn of the loop over a worker's fragments keeps the account of the ports taken so far |
| Negotiation.AssignWorkerPorts | src/core/app_driver.cpp:919-929 | a worker's receiver entries, fragment after fragment, take its offered ports in order and keep their indices; the index-to-port table records each; other lists are untouched and no list changes length |
| Negotiation.Without | src/core/app_driver.cpp:846-850 | the connected workers that the schedule does not name, each once |
| Negotiation.GroupByWorker | src/core/app_driver.cpp:884-888 | the workers are exactly the schedule's values, each once, and each worker's group holds exactly the fragments scheduled on it, each once |
| Negotiation.NegotiateWorker | src/core/app_driver.cpp:892-929 | a worker is asked for as many ports as its fragments need given the ports used on its IP address; the answer is accepted exactly when it has that many ports, and then the ports are added to those used on the address, handed out to the worker's receiver entries in order and written into the index-to-port table; no list changes length |
| Negotiation.DisjointStep | src/core/app_driver.cpp:905-917 | when workers offer distinct ports outside those in use, the ports handed out stay distinct within a worker and between workers on one IP address |
| Negotiation.NegotiateNext | src/core/app_driver.cpp:890-930 | one turn of the worker loop either finds a worker whose offer, asked for given the ports used on its address, does not match its demand, leaving everything as it was, or extends the account of the negotiation by that worker |
| Negotiation.NegotiatedAll | src/core/app_driver.cpp:890-930 | once every worker has answered in full: fragments on no worker keep their lists, the table holds every worker's writes, each worker's entries keep their indices and carry its offered ports, and well-behaved offers give no port twice on one address |
| Negotiation.NegotiatePorts | src/core/app_driver.cpp:890-930 | the worker loop stops at the first worker whose offer, asked for given the ports used on its address, is short or long, and names it as the last one asked; the workers before it keep the ports written into the tables for them (`NegotiatedUpTo`); otherwise every worker is asked and the outcome is the full account of `NegotiatedAll`; every receiver list keeps its length either way |
| Scheduling.CancelIdle | src/core/app_driver.cpp:846-856 | exactly the connected workers no fragment is placed on are asked, each once, to stop with `Cancelled`, and their connections are closed; the others stay connected |
| Scheduling.Readdress | src/core/app_driver.cpp:877-882 | one index of the loop is looked up: it gets its fragment's worker's IP address and the schedule gains that fragment |
| Scheduling.Pick | src/core/app_driver.cpp:877 | some index still to visit, in no fixed order |
| Scheduling.AllValues | src/core/app_driver.cpp:877-882 | once every index is looked up, every fragment of the table has been |
| Scheduling.Lookups | src/core/app_driver.cpp:876-882 | every connection index is given the IP address of the worker its receiving fragment is placed on, the schedule is completed with the fragments looked up, and the workers looked up are returned |
| Scheduling.ConnectEach | src/core/app_driver.cpp:879 | every worker looked up ends up connected and the connections already open are kept |
| Scheduling.Locate | src/core/app_driver.cpp:876-888 | the index-to-address table is rewritten with worker IP addresses, and the workers of the completed schedule are grouped, each once, with exactly their fragments |
| Scheduling.PlanPorts | src/core/app_driver.cpp:867-930 | the connector counts, the lookups, the grouping and the negotiation give the outcome `Planned` describes; the workers connected on the way are the schedule's workers, and a shortage names one of them |
| Scheduling.LaunchAll | src/core/app_driver.cpp:936-961 | the workers are asked in turn to launch their fragments with the corrected connection map; the first refusal ends the loop and is the last worker asked, and every other worker asked accepted |
| DriverServer.Terminations | src/core/app_driver.cpp:1011-1016 | one stop request per address, in order, each with the given code |
| DriverServer.WorkerClient.constructor | src/core/services/app_driver/server.cpp:114-115 | a client is made for the worker's address |
| DriverServer.AppDriverServer.constructor | src/core/services/app_driver/server.cpp:35-37 | a new server has no connections, is not stopping, and has sent no requests |
| DriverServer.AppDriverServer.ConnectToWorker | src/core/services/app_driver/server.cpp:110-121 | the client already open for the address is returned unchanged, otherwise a new client is registered under it; nothing else changes |
| DriverServer.AppDriverServer.CloseWorkerConnection | src/core/services/app_driver/server.cpp:123-133 | the address's client is dropped, and the result is true exactly when there was one |
| DriverServer.AppDriverServer.GetWorkerAddresses | src/core/services/app_driver/server.cpp:135-145 | the addresses of the open connections, each once, as many as `num_worker_connections` counts |
| DriverServer.AppDriverServer.Stop | src/core/services/app_driver/server.cpp:45-48 | the server is told to stop and its connections stay as they are |
| DriverServer.AppDriverServer.TerminateWorker | src/core/app_driver.cpp:1014 | the worker's stop request is recorded, in order |
| DriverServer.TerminateOne | src/core/app_driver.cpp:1012-1015 | one worker is asked to stop with the code and its connection is closed |
| DriverServer.TerminateNext | src/core/app_driver.cpp:1011-1016 | one turn of the termination loop keeps the account of the workers done |
| DriverServer.TerminateEach | src/core/app_driver.cpp:1011-1016 | each given worker in turn is asked to stop with the code and disconnected; every other connection is kept |
| Messages.MessageQueue.constructor | src/core/app_driver.cpp:154 | the queue starts empty |
| Messages.MessageQueue.Push | src/core/app_driver.cpp:335 | a submitted message joins the back of the queue and nothing leaves it |
| Messages.MessageQueue.Pop | src/core/app_driver.cpp:344-346 | the oldest message leaves the queue, so messages are handled in the order they arrived |
| Driver.EmittedAllLinks | src/core/app_driver.cpp:610-646 | the connections recorded edge by edge are exactly those each edge's port map stands for, in order |
| Driver.CollectedLinks | src/core/app_driver.cpp:592-647 | the connections a collection of distinct edges records are, each once, exactly the label pairs of the edges before the first failure, under their corrected port maps |
| Driver.ConnectionsCollected | src/core/app_driver.cpp:528-651 | a full visit goes through every edge of the fragment graph once; the collection succeeds exactly when no label correction fails; the edges tried carry corrected maps; the connections recorded are each label pair of the edges done, once |
| Driver.CollectKeepsWired | src/core/app_driver.cpp:603 | after a collection, finished or stopped, every downstream label still names an operator of the receiving fragment, so collecting again stays defined |
| Driver.CollectLinksFrom | src/core/app_driver.cpp:610-646 | every connection recorded joins the two ends of an edge gone through |
| Driver.CollectKeepsNamed | src/core/app_driver.cpp:627-635 | collecting over a graph gives receiver lists only to fragments of the graph |
| Driver.NoPreviousIsRoot | src/core/app_driver.cpp:545-546 | a fragment has no previous fragments exactly when it is a root |
| Driver.Indegrees | src/core/app_driver.cpp:544-551 | every fragment gets an in-degree, zero exactly for roots, and the work list starts with the roots in `get_nodes` order |
| Driver.Roots | src/core/app_driver.cpp:533-551 | the first pass leaves the work list in its initial state: nothing visited, the roots queued |
| Driver.NextUnseen | src/core/app_driver.cpp:567 | the next fragment of a duplicate-free list has not been seen before |
| Driver.BreakCycles | src/core/app_driver.cpp:567-577 | exactly the fragments with predecessors go on the work list, in order, and every in-degree becomes zero |
| Driver.Dequeue | src/core/app_driver.cpp:556-586 | with fragments left to visit, the fragment taken off the work list (after the cycle breaking if it ran dry) is one not visited yet, and the visits stay a prefix of the visiting order |
| Driver.ShortOf | src/core/app_driver.cpp:909-916 | a worker is named exactly when the check ended on a port shortage |
| Driver.AppDriver.constructor | src/core/app_driver.cpp:154 | the driver starts with empty tables, status `NotStarted` and an empty message queue |
| Driver.AppDriver.RecordLink | src/core/app_driver.cpp:627-641 | one connection is recorded in all four tables under the next port index |
| Driver.AppDriver.RecordKey | src/core/app_driver.cpp:612-645 | the connections from one upstream label to each destination are recorded in turn |
| Driver.AppDriver.RecordLabel | src/core/app_driver.cpp:612-645 | the connections from one upstream label to its destination set are recorded in ascending order, and the next index is returned |
| Driver.AppDriver.RecordEdge | src/core/app_driver.cpp:610-646 | every connection of an edge's port map is recorded, labels in ascending order, and the next index is returned |
| Driver.AppDriver.ConnectEdge | src/core/app_driver.cpp:594-646 | the edge's shared port map has its labels corrected in place; on success its connections are recorded, on failure nothing is; the graph is otherwise unchanged |
| Driver.AppDriver.ConnectNext | src/core/app_driver.cpp:592-647 | one incoming edge moves the collection on by that edge, or ends it there |
| Driver.AppDriver.ConnectPredecessors | src/core/app_driver.cpp:590-647 | the edges into a fragment are corrected and recorded in turn until one fails, with the outcome of `Collect` on those edges |
| Driver.AppDriver.VisitFragment | src/core/app_driver.cpp:584-647 | a visit lists the fragment's predecessors and extends the collection by the edges from them |
| Driver.AppDriver.VisitNext | src/core/app_driver.cpp:556-647 | one turn of the loop visits one more fragment, not visited before, in the visiting order, and extends the collection |
| Driver.AppDriver.VisitAll | src/core/app_driver.cpp:553-648 | the loop visits fragments in the visiting order until all are visited or a visit fails; on success every fragment is visited; the tables hold exactly what `Collect` records |
| Driver.AppDriver.StartLedger | src/core/app_driver.cpp:553 | port indices are numbered from 0 on the tables as they stand |
| Driver.AppDriver.CollectFresh | src/core/app_driver.cpp:533-650 | the first pass and the loop together: on success every fragment is visited; the graph's port maps and the tables are those `Collect` leaves; the status is unchanged |
| Driver.AppDriver.TerminateAllWorkers | src/core/app_driver.cpp:1008-1017 | every connected worker is asked, once, to stop with the code, and every connection is closed; the server's stop flag is untouched |
| Driver.LastWorkerFinishes | src/core/app_driver.cpp:976-987 | the only connected worker reporting success finishes an application that has not failed, closes the last connection and stops the server, with no stop request sent |
| Driver.AppDriver.CheckWorkerExecution | src/core/app_driver.cpp:971-1006 | as `WorkerChecked` states: an unknown worker changes nothing; a success closes its connection and, when none remains, finishes the application unless it already failed and stops the server; a cancellation or failure closes it, asks every other worker to stop with that code, sets `Error` and stops the server |
| Driver.AppDriver.CollectConnections | src/core/app_driver.cpp:528-651 | with connections already collected it succeeds and changes nothing; otherwise the visit covers every fragment on success and the graph and tables are those `Collect` leaves; the labels stay on operators of the receiving fragments and only fragments of the graph get receiver lists |
| Driver.AppDriver.NegotiateSchedule | src/core/app_driver.cpp:867-930 | the lookups and the negotiation give the outcome `Planned` describes; the driver stays connected to the workers it had and ends up connected to the schedule's workers unless a shortage cut the loop short; the status and the stop requests are unchanged |
| Driver.AppDriver.Dispatch | src/core/app_driver.cpp:932-964 | the connection map is corrected, then each worker is asked to launch; if all accept, the status is `Running`; the first refusal asks every connected worker to stop with `Failure`, closes every connection, sets `Error` and stops the server |
| Driver.AppDriver.Launch | src/core/app_driver.cpp:909-964 | a port shortage ends the check with the tables, the status, the stop flag, the requests sent and the server's connections unchanged; otherwise the outcome is as `Settled` describes |
| Driver.AppDriver.RunSchedule | src/core/app_driver.cpp:846-964 | the idle workers are cancelled and disconnected, the plan is as `Planned` describes, and the outcome as `Settled` describes; after a port shortage the driver is still connected to every scheduled worker it was connected to, and to no worker outside the completed schedule |
| Driver.AppDriver.CollectAndRun | src/core/app_driver.cpp:846-964 | the connections are collected as `Gathered` states (kept when present; otherwise the visit, the edges gone through, the port maps and the tables are those `Collect` leaves, a failure only logged), and the schedule is carried out on the collected tables as `RunSchedule` says, the connections left by a shortage included |
| Driver.AppDriver.CheckFragmentSchedule | src/core/app_driver.cpp:829-969 | the asking worker is connected if named; without a schedule nothing else changes; with one, `ScheduleChecked` holds: the connections are collected as `Gathered` states, idle workers are cancelled, the ports on the collected tables are negotiated as `Planned` describes, a shortage leaves the connections between those kept and the completed schedule's workers, and a shortage, a refusal or a launch ends it as `Settled` describes |
| Driver.AppDriver.SubmitMessage | src/core/app_driver.cpp:333-339 | the message joins the back of the queue |
| Driver.AppDriver.ScheduleRequested | src/core/app_driver.cpp:351-358 | a schedule request for the worker address carried is handled as `Handled` states: without a schedule only that worker is connected; with one, the collection, the outcome and the state are those `ScheduleChecked` describes, as for `CheckFragmentSchedule` |
| Driver.AppDriver.HandleMessage | src/core/app_driver.cpp:348-376 | as `Handled` states: a message of an unknown code or the wrong payload changes nothing; a termination request stops the server and nothing else; a worker's status leaves the tables alone and has the effect `WorkerChecked` describes (its success and failure branches, the stop requests to the other workers); a schedule request connects the asker and, with a schedule, has the effect `ScheduleChecked` describes |
| Driver.AppDriver.ProcessNext | src/core/app_driver.cpp:344-376 | one turn of the loop: the oldest message leaves the queue and is handled as `Handled` states; a termination request leaves the server stopped, and a stopped server stays stopped |
| Driver.HandledSnoc | src/core/app_driver.cpp:344-376 | handling one more message in turn extends the account `HandledInTurn` keeps |
| Driver.WorkerHandled | src/core/app_driver.cpp:359-366 | a worker's termination checked as `WorkerChecked` states, with the tables and port maps unchanged, is that message handled as `Handled` states |
| Driver.AppDriver.ProcessMessageQueue | src/core/app_driver.cpp:341-378 | every queued message is handled, oldest first, each as `Handled` states on the state the previous one left (`HandledInTurn`), from the state before the call to the state after it; the queue ends empty, and a termination request among them leaves the server stopped |

## Left out

- Threads, futures, signal handlers and polling in `AppDriver::run`, `run_async`, `launch_app_driver`, `launch_app_worker` and `launch_fragments_async` (src/core/app_driver.cpp:163-317, 1019-1141): these are concurrency and process control, not table logic.
- The server thread, gRPC services, the health-check service, `start`, `wait`, `run` and `notify` of `AppDriverServer`, and the mutex in `submit_message`: messages are modelled as a sequential first-in first-out queue. `stop` is a flag, and `ProcessMessageQueue` is called directly instead of on a notification.
- Logging: every `HOLOSCAN_LOG_*` call is dropped. A `bad_any_cast` while reading a message's payload is modelled as an `Ignored` message that changes nothing.
- Worker RPCs are opaque functions in `Remote`: `ip_address`, `available_ports` and `fragment_execution`. `terminate_worker` is recorded in the server's `sent` log; its transport is not modelled.
- Worker port offers: the port range `kMinNetworkPort`..`kMaxNetworkPort` is not passed. A worker's offer depends on the worker, the number of ports asked for and the ports already used on its address.
- `Negotiation.DisjointStep` and `Negotiation.NegotiatePorts` prove distinct ports per address only when the offers are well behaved (`WellOffered`). The source trusts the workers on this.
- `fragment_execution` receives the names of a worker's fragments rather than the `find_node` results.
- The fragment scheduler's `schedule()` is not part of this model. It is an input to `CheckFragmentSchedule`. `ProcessMessageQueue` takes one answer per message position.
- `Operator::parse_port_name` is not part of this model. It is the `LabelParser` parameter.
- Operator specs are reduced to their input labels, output labels and `std::vector<IOSpec*>` parameter names. The `add_receivers` hook is a parameter.
- `Driver.AppDriver.ProcessMessageQueue` requires that the label parser reads completed labels back (`ReadsBack`). That is what keeps `Wired` from one schedule request to the next. The source assumes it silently.
- `Driver.AppDriver.HandleMessage` requires `ReadsBack` for the same reason.
- `Driver.AppDriver.ScheduleRequested` requires `ReadsBack` for the same reason.
- `Driver.AppDriver.CheckFragmentSchedule` requires every downstream label of each fragment edge to name an operator of the receiving fragment (`Wired`). `update_port_names` dereferences that operator without a null check (src/core/app_driver.cpp:451-452). `Driver.AppDriver.CollectConnections` has the same precondition.
- `Driver.Repair` reports a port map naming an unknown downstream operator as a failed correction. The source's behaviour there is undefined, and no caller reaches it under `Wired`.
- Driver.AppDriver.CheckFragmentSchedule:
  - It collects the connections before cancelling the idle workers. The source cancels first (src/core/app_driver.cpp:846-865). The two touch disjoint state, so the final state is the same.
  - The composition of each fragment's graph (src/core/app_driver.cpp:862) is not repeated there. Composition is `Fragments.Fragment.ComposeGraph`.
- Scheduling.Lookups:
  - All index lookups happen before the connections to the workers looked up are opened. The source interleaves them; the same clients end up registered.
  - Only which addresses are connected is stated, not which client object each keeps.
- Unordered iteration (`unordered_map`, `unordered_set`) visits elements in an arbitrary order that is fixed by a choice in the model. Contracts do not depend on that order, except where noted.
- PortNames.UpdatePortNames: the labels of a port map are visited in ascending order; the source iterates an `unordered_map` (src/core/app_driver.cpp:388, 444). The verdict does not depend on that order. But the downstream pass corrects label by label in place, so when it fails (src/core/app_driver.cpp:483, 503) which labels the map already has corrected is stated for the ascending order only. The same holds for the failing edge's port map in `Collecting.CollectFixes`, `Driver.AppDriver.CollectConnections` and, through `Gathered`, `Driver.AppDriver.CollectAndRun` and `Driver.AppDriver.CheckFragmentSchedule`.
- Connections.EdgeLinks: the upstream labels of an edge's port map are taken in ascending order, and so are the destinations of each label. This fixes which port index each label pair gets. The facts proved (each pair once, both ends of every connection agree) hold for this order only.
- Port indices and port numbers are unbounded integers. The source's `int32_t` port index would wrap after 2^31 connections, and ports are `uint32_t`.
- `std::stod` is a parameter, as are the float fields of resource requirements and `check_recession_period_ms`. Floating-point rounding is not modelled, except the truncating conversion to `uint64_t` in the memory-size parser.
- YAML and configuration loading, and the environment lookups themselves: each decision function takes the parsed node or the optional variable value.
- `get_int_env_var`, `set_ucx_to_exclude_cuda_ipc` and `exclude_cuda_ipc_transport_on_igpu` (src/core/app_driver.cpp:72-112) are not part of this model. They are process-environment and device set-up.
- Visiting.QueuedPop: the fragment taken off the work list is read by value. The source keeps a reference to the front of the deque across `pop_front` (src/core/app_driver.cpp:580-582).
- Exceptions are `Result` failures. This covers `add_node`'s duplicate-name error and `add_flow`'s errors. The YAML exceptions that `collect_resource_requirements` swallows are modelled as values: a `NotScalar` memory value and a key that is not a scalar. Other YAML exceptions, such as indexing a document that is not a map, are not modelled; such a document is taken to have no `resources` map.
