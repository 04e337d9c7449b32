# Verified models of minimega

A Dafny model of five parts of minimega, with proofs about whole runs of each:

- **The mesh** (`Graphs`, `Topology`, `Routing`, `MeshNode`, `Delivery`, `Flood`). Each node prunes the adjacency it
  has been told about to mutually reported links it can reach, and finds a next hop for every peer by breadth-first
  search. Messages are split by next hop and forwarded node by node; announcements of the topology are flooded.
- **The VM scheduler** (`HostHeap`, `Placement`, `Assignment`, `VmScheduler`). Queued VMs are placed on the least loaded
  host, on the host they name, or with the VM they are colocated with, under coschedule limits. A hand-written heap
  keeps the least loaded host in front.
- **The igor reservation store** (`Bookings`, `Reservations`). Reservations get a time window on named hosts or on a
  contiguous block of the cluster, and are extended, edited and deleted.
- **The command line** (`Patterns`, `Compilation`, `Arguments`, `Validation`, `TrieNodes`, `Lexing`,
  `InputLexer`). Patterns are
  indexed in a trie against which input is compiled; a validator looks for ambiguous patterns; a lexer splits lines
  into items and a printer writes items back.
- **File transfer** (`FileParts`, `Transfers`, `FileShare`). Files travel between nodes in parts, in shuffled order, with
  retries, from nodes that may have only some of the parts, and may be picked up by nodes that merely pass them on.

Code that updates things in place is modelled by classes, arrays and loops, each proved against a function or predicate
on values; the protocols are step relations over states, with theorems over all their runs. `Sequences` holds what the
parts share. All files belong to one project: `dafny verify dfyconfig.toml`.

Four statements one might expect are false, and are given as an exact condition instead:

- The documentation of `scheduleContiguous` says it finds the first time any contiguous block is free. It does so for
  every table only when one host or the whole cluster is requested (`Bookings.ContiguousFirstIff`); the model follows
  the code.
- A node accepts an announcement twice exactly when a late older announcement trips its lollipop reset after it had
  accepted and a copy reaches it later (`Flood.AcceptsTwiceIff`); `Flood.AcceptsTwice` is such a run.
- A printed list of items is read back exactly when each item is good in the sense of `Lexing.Good`
  (`Lexing.RoundTripIff`).
- The validator reports a pattern and any proper one exactly when some input writes out both, if and only if no literal
  or option of the pattern is an asterisk and none is empty where the pattern may end (`Validation.AmbiguousIff`;
  `Validation.AsteriskIsOverreported` and `Validation.EmptyIsOverreported` are the two families it gets wrong).

## Model

| member | source | states |
|---|---|---|
| `Topology.PruneIsEffective` | src/meshage/route.go:16-72 | the pruned network has exactly the mutually reported links of the local node's component |
| `Topology.PruneIdempotent` | src/meshage/route.go:16-72 | pruning a pruned network changes nothing, which is why a second pass is the last |
| `Topology.EffectiveAgrees` | src/meshage/route.go:16-72 | nodes of one component derive the same effective network from the same reports |
| `Routing.NearIsVisited` | src/meshage/route.go:86-116 | everything as near as the front of the search queue has been visited |
| `Routing.VisitOne` | src/meshage/route.go:103-116 | a newly found neighbour gets its exact distance, and the channel of one slot per node has room for it |
| `Routing.Exhausted` | src/meshage/route.go:86-116 | once the queue is empty every reachable node has been visited |
| `Routing.Visit` | src/meshage/route.go:103-111 | visiting all neighbours of a node keeps the search invariant and never fills the channel |
| `Routing.BreadthFirst` | src/meshage/route.go:86-116 | the search, which stops early at its goal, builds a shortest-path tree and reaches the goal exactly when it is reachable |
| `Routing.FirstHop` | src/meshage/route.go:118-134 | following previous hops back from any visited node yields a neighbour that begins a shortest path |
| `Routing.RecordHops` | src/meshage/route.go:118-134 | recording the hops of one search overwrites older entries only with shortest next hops |
| `MeshNode.LinksOf` | src/meshage/route.go:22-41 | all mutual links of one reporting node are recorded at both ends, and no others |
| `MeshNode.MutualLinks` | src/meshage/route.go:20-42 | the recorded links are exactly the mutually reported ones, whatever order the map is read in |
| `MeshNode.RoutesComplete` | src/meshage/route.go:53-72 | shortest next hops that cover a connected network are its whole routing table |
| `MeshNode.Node.constructor` | src/meshage/node.go:94-125 | a new node knows no network and has no update pending |
| `MeshNode.Node.UpdateRoute` | src/meshage/route.go:77-135 | all routes stay shortest, none is lost, and the wanted node gets one if it is reachable |
| `MeshNode.Node.Learn` | src/meshage/route.go:53-57 | after looking a node up there is a route for it exactly when it is reachable |
| `MeshNode.Node.LearnAll` | src/meshage/route.go:53-63 | exactly the unreachable nodes are dropped from the network, in any map order |
| `MeshNode.Node.Pass` | src/meshage/route.go:20-66 | one pass prunes completely, and is stable exactly when there was nothing to prune |
| `MeshNode.Node.GenerateEffectiveNetwork` | src/meshage/route.go:16-72 | at most two passes leave the local component with a shortest route for every node in it, and keep the local node's own entry |
| `MeshNode.Node.CheckUpdateNetwork` | src/meshage/node.go:590-597 | afterwards the effective network and the routes are those of the current network |
| `MeshNode.Node.HandleMSA` | src/meshage/node.go:554-581 | the reports change for the source only, and unchanged reports leave the effective network alone |
| `MeshNode.Node.ReceiveMSA` | src/meshage/message.go:210-223 | an announcement is stored and flooded exactly when its number is above the stored one after the lollipop check; the reports then change for its source only, and other instances keep their numbers |
| `MeshNode.Node.Sequence` | src/meshage/node.go:546-552 | the number of the own instance rises by one, the others stay |
| `MeshNode.Node.Announce` | src/meshage/node.go:487-544 | an announcement is issued exactly when it is due and there are clients, with the next number; the own links are up to date and other reports untouched |
| `Delivery.GetRoutes` | src/meshage/message.go:124-147 | the recipients are split by next hop, skipping oneself and nodes without a route; sending to oneself alone is refused |
| `Delivery.StepInv` | src/meshage/message.go:64-120 | every delivery step keeps: each recipient is pending or received, in one copy, on a shortest path |
| `Delivery.StepCounts` | src/meshage/message.go:224-243 | a step neither loses nor duplicates a recipient, and one hop of work is done |
| `Delivery.SetDelivers` | src/meshage/message.go:151-161 | on a converged mesh every run of a Set is finite; nobody but the reachable recipients receives it, each at most once and after exactly its shortest hop count; when nothing is in flight each has received it |
| `MeshNode.Node.BroadcastRecipients` | src/meshage/message.go:178-195 | the routes are brought up to date, and everybody else in the component is listed once |
| `Delivery.BroadcastDelivers` | src/meshage/message.go:163-176 | a broadcast reaches every other node of the sender's component exactly once, by a shortest path, and ends |
| `Delivery.SetProgresses` | src/meshage/message.go:200-243 | while a copy is in flight some step is possible |
| `Flood.AcceptsIff` | src/meshage/message.go:211-223 | number 1 is accepted just when nothing or more than 16 is stored, any other just when it is above the stored one |
| `Flood.StepInv` | src/meshage/message.go:207-275 | every step of a flood keeps: routes repeat no node, nobody accepts twice, and every client of a node that accepted is settled or has the announcement under way |
| `Flood.TwiceMeansForgot` | src/meshage/message.go:211-223 | with any older announcements, whoever has accepted holds the number or has been made to forget it |
| `Flood.ForgotStaysBelow` | src/meshage/message.go:211-223 | a node that was made to forget stays below the number until a copy reaches it, and then accepts again |
| `Flood.AcceptsTwiceIff` | src/meshage/message.go:211-223 | in every run, whatever older announcements arrive when, some node accepts twice exactly when one that had accepted is made to forget by the lollipop reset and a copy reaches it later |
| `Flood.QuiescentCoverage` | src/meshage/message.go:250-275 | when nothing is under way, exactly the nodes joined to the originator by fresh nodes have accepted |
| `Flood.FloodBound` | src/meshage/message.go:207-275 | a flood over n nodes takes at most (n - 1)(n + 2) + n + 1 steps of its own |
| `Flood.FloodCovers` | src/meshage/message.go:207-275 | every run, interleaved with older announcements that do not trip the reset: bounded, loop-free routes, nobody accepts twice, exact coverage at the end |
| `Flood.FloodReachesAll` | src/meshage/message.go:250-275 | with a number that is new to everybody, every node reachable over client links has accepted at the end |
| `Flood.FloodProgresses` | src/meshage/message.go:200-275 | while an announcement is under way some step is possible |
| `Flood.AcceptsTwice` | src/meshage/message.go:212-214 | a run of three nodes in which a late copy of number 1 makes a node accept number 17 twice |
| `HostHeap.OrderIsWeak` | src/minimega/scheduler.go:322-356 | the three load orders are strict weak orders with full hosts last |
| `HostHeap.AtMostIff` | src/minimega/scheduler.go:322-356 | the orders compare committed shares by cross-multiplying the hosts' own numbers, hosts at their limit last |
| `HostHeap.RootIsLeast` | src/minimega/scheduler.go:103-104 | the host in front of a heap is a minimum of the load order |
| `HostHeap.RaisedKeyKeepsHeap` | src/minimega/scheduler.go:222-234 | raising the load of one host can only upset its own children |
| `HostHeap.SwapDown` | src/minimega/scheduler.go:238-260 | swapping with the lighter child moves the only defect down to that child |
| `HostHeap.SiftDown` | src/minimega/scheduler.go:238-260 | sifting down restores the heap and keeps the hosts |
| `HostHeap.Heapify` | src/minimega/scheduler.go:208-218 | the initial sort yields a heap of the same hosts |
| `HostHeap.Update` | src/minimega/scheduler.go:222-234 | after the load of the named host has risen, sifting it down restores the heap |
| `Placement.GrownOneMore` | src/minimega/scheduler.go:315-320 | one more VM adds one, its CPUs, its memory and its networks to the totals, and can only lower the limit, to its peers plus one |
| `Placement.GrownIsHeavier` | src/minimega/scheduler.go:160-179 | placing VMs never lowers a host in any load order, and a full host stays full |
| `Placement.LowAllIsLowest` | src/minimega/scheduler.go:161-176 | the limit of a host ends as its own or as the strictest that a placed VM allows |
| `Placement.GrowingKid` | src/minimega/scheduler.go:181-189 | adding the subtree of one more follower extends the part of the colocation tree that is done |
| `Assignment.SettledAfter` | src/minimega/scheduler.go:98-120 | placing a root with everybody who follows it keeps: every placed VM has one home, followers share it, named hosts are respected |
| `Assignment.CompleteWhenFilesEmpty` | src/minimega/scheduler.go:122-132 | with all roots placed and nothing left on file, every queued VM is placed and every colocation chain ends at a VM that does not float |
| `Assignment.CompleteMeans` | src/minimega/scheduler.go:98-133 | in a complete schedule a VM is on one host, once, with the configuration of its group: the host it names, or else that of the VM it is colocated with |
| `Assignment.StuckWhenFilesRemain` | src/minimega/scheduler.go:122-130 | something left on file means that a colocation chain leads nowhere or round in a circle |
| `Assignment.LimitsHold` | src/minimega/scheduler.go:160-206 | a host's VMs, running and new, are within its earlier limit and within c + 1 for every new VM with coschedule limit c |
| `VmScheduler.Scheduler.Admit` | src/minimega/scheduler.go:160-179 | one VM lowers the limit and raises the commit totals by exactly its demands |
| `VmScheduler.Scheduler.AddKids` | src/minimega/scheduler.go:181-192 | all VMs that float with one just admitted are placed on its host with their own followers, each once, or the host is over its limit |
| `VmScheduler.Scheduler.Add` | src/minimega/scheduler.go:160-206 | the recursion ends for every queue with distinct names, cycles included, and places exactly the colocation subtree, or leaves the host with more VMs than its limit |
| `VmScheduler.Scheduler.PlaceOn` | src/minimega/scheduler.go:113-118 | one host grows by the placed subtree, the heap is restored; a refusal leaves that host alone over its limit, and an unlimited VM without followers is refused exactly by a host that was full |
| `VmScheduler.Scheduler.PlaceRoot` | src/minimega/scheduler.go:103-118 | the VM goes to the host it names, or else to one that no host is to be preferred to by the true loads; everything that holds between placements holds again, or that host alone has gone over its limit; an unlimited VM without followers is refused only if every host was full before |
| `VmScheduler.Scheduler.WorkOff` | src/minimega/scheduler.go:98-120 | all VMs that do not float are placed in the order the sort left, each on the right host by the loads at that time, or one is refused: placing it took a host over its limit, from loads that account for what was placed so far |
| `VmScheduler.ResolvedHosts` | src/minimega/scheduler.go:56-60 | only the host of a group changes, and only where it was localhost |
| `VmScheduler.Scheduler.Prepare` | src/minimega/scheduler.go:53-74 | localhost is resolved, every named host exists, and the floating groups are filed under the VMs they follow |
| `VmScheduler.Scheduler.Assign` | src/minimega/scheduler.go:91-132 | each outcome of a schedule over several hosts means what `Scheduler.Answer` says |
| `VmScheduler.Scheduler.Schedule` | src/minimega/scheduler.go:40-133 | success: the record of placements, each on the named or the least loaded host by the loads before it, makes up the schedule; every queued VM is on exactly one host, the one it names or its companion's, with exact commit totals within all limits; a refusal names a host that one VM with its followers took over its limit, for an unlimited VM without followers only when every host was full already; the names reported as nonexistent are exactly those followed whose chains end nowhere |
| `Bookings.FreeMeans` | src/igor/reservation.go:56-59 | a window is free on a host just when no reservation holds the host at a moment of it |
| `Bookings.NeverTwice` | src/igor/reservations.go:233-283 | in a sound table no host belongs to two reservations at any moment |
| `Bookings.PutSoundIff` | src/igor/reservations.go:175-178 | writing an entry keeps the table free of double bookings exactly when it clashes with no other |
| `Bookings.ExtendSound` | src/igor/reservations.go:261-283 | growing a reservation into a free window behind it keeps the table sound |
| `Bookings.ChangesStaySound` | src/igor/reservations.go:138-283 | after any sequence of scheduling, extending, editing in place and deleting, no host is booked twice at a time |
| `Bookings.ActiveUnique` | src/igor/reservations.go:41-53 | at most one reservation is active on a host at any time |
| `Bookings.NextFree` | src/igor/schedule.go:141-158 | the returned time is the first from the request on at which the window clashes with nothing listed |
| `Bookings.NextFreeOnList` | src/igor/schedule.go:141-158 | on the list of a host this is the first time the host is free for the duration |
| `Bookings.BumpProgresses` | src/igor/schedule.go:120-131 | a pass in which no block fits moves the start strictly up to the end of a reservation, so the search ends |
| `Bookings.ContiguousSafe` | src/igor/schedule.go:50-139 | the result is a contiguous run of valid hosts, all free for the whole window, no earlier than requested |
| `Bookings.SingleHostFirst` | src/igor/schedule.go:48-139 | for a single host the result is the first possible time |
| `Bookings.WholeClusterFirst` | src/igor/schedule.go:48-139 | for the whole cluster the result is the first possible time |
| `Bookings.MissedBlock` | src/igor/schedule.go:48-139 | a table on which the search settles for time 100 although a block is free at 5 |
| `Bookings.ContiguousFirstIff` | src/igor/schedule.go:48-139 | the search returns the first possible time on all tables exactly for one host or for the whole cluster |
| `Reservations.NodesFor` | src/igor/reservations.go:192-216 | every known host gets exactly its reservations, in order of their start |
| `Reservations.FirstBusy` | src/igor/schedule.go:28-44 | a sweep finds all hosts free or a later start before which they are not all free |
| `Reservations.SearchHosts` | src/igor/schedule.go:16-46 | the search ends, fails exactly on an unknown host, and finds the earliest start |
| `Reservations.UpdateStarts` | src/igor/schedule.go:66-74 | each start is the first free time of its host |
| `Reservations.BestBlock` | src/igor/schedule.go:76-118 | the first of the fitting blocks with the least start, or none if no block fits |
| `Reservations.SearchContiguous` | src/igor/schedule.go:50-139 | the search ends and returns what the passes over the table determine |
| `Reservations.Store.ScheduleHosts` | src/igor/schedule.go:16-46 | the reservation gets the earliest start at which all its hosts are free; the table is untouched |
| `Reservations.Store.ScheduleContiguous` | src/igor/schedule.go:50-139 | succeeds exactly when the request fits the cluster, with the block and start of the contiguous search |
| `Reservations.Store.Schedule` | src/igor/reservations.go:233-259 | files the reservation in a free window unless speculative, at the earliest start of the named hosts or on the run of valid hosts that the contiguous search finds, no earlier than requested; the store stays free of double bookings and is marked dirty exactly when something was filed |
| `Reservations.Store.HasRoom` | src/igor/reservations.go:262-275 | the trial reservation starts right behind exactly when that window is free on all hosts |
| `Reservations.Store.Extend` | src/igor/reservations.go:261-283 | succeeds exactly when the added window is free on all hosts, and then lengthens the reservation by it and marks the store dirty |
| `Reservations.Store.Delete` | src/igor/reservations.go:138-173 | removes the reservation and nothing else and marks the store dirty, unless it is unknown or cannot be cleaned up |
| `Reservations.Store.Edit` | src/igor/reservations.go:175-178 | the store is marked dirty, and stays valid exactly when the new reservation clashes with no other |
| `Reservations.Store.ActiveHosts` | src/igor/reservations.go:41-53 | every host with an active reservation is mapped to it, whatever order the table is read in |
| `Patterns.AddInserts` | src/minicli/trie.go:39-94 | adding a pattern succeeds exactly when its spellings are new and differ from each other, and adds exactly those |
| `Patterns.BuildIndexes` | src/minicli/trie.go:26-94 | registration succeeds exactly when no path is spelled twice, and the trie then has the handlers at exactly the spellings of the registered patterns |
| `Compilation.CompileSound` | src/minicli/trie.go:97-209 | a compiled command comes from a path of the trie that matches the input by prefixes, with its handler and those arguments; nested commands included |
| `Compilation.ExactCommand` | src/minicli/trie.go:116-145 | a command counts as exact just when every literal and choice was written in full |
| `Compilation.SoleCompiles` | src/minicli/trie.go:97-209 | at any node, an input with one matching path, or with one exact path, compiles to it |
| `Compilation.CompiledIsRegistered` | src/minicli/trie.go:39-209 | a compiled command comes from a registered pattern: some spelling of it reads the input, and its handler with the arguments of that spelling make the command |
| `Compilation.OnlySpellingCompiles` | src/minicli/trie.go:39-209 | an input that only one spelling of the registered patterns reads compiles to it |
| `Compilation.UniqueCompiles` | src/minicli/trie.go:97-209 | an input that only one path of a trie matches compiles to it |
| `Compilation.ChooseCounts` | src/minicli/trie.go:175-199 | a single candidate is chosen, among several a single exact one, otherwise none |
| `Arguments.SpellingDescribes` | src/minicli/trie.go:97-172 | the command of a spelling holds the word at its place for every string argument, the matched option for every choice, the remaining words for a list, the nested command, and nothing else |
| `Arguments.CompiledArguments` | src/minicli/trie.go:39-209 | every compiled command is, item by item, what one of the registered patterns makes of the input, with the handler registered for it |
| `Arguments.StringArguments` | src/minicli/trie.go:124-130 | with names that differ, every string argument is the word at its place |
| `Arguments.OnlyReadingCompiles` | src/minicli/trie.go:39-209 | an input that the registered patterns can be read from in one way only, abbreviations included, compiles to that pattern and those values |
| `Compilation.ExactWins` | src/minicli/trie.go:175-199 | the only exact match wins over any number of abbreviated ones |
| `TrieNodes.Pick` | src/minicli/trie.go:175-199 | counting candidates and exact ones chooses the single candidate, else the single exact one, in any order |
| `TrieNodes.PatternTrie.SetHandler` | src/minicli/trie.go:87-94 | a node takes a handler only if it has none |
| `TrieNodes.PatternTrie.AddBelow` | src/minicli/trie.go:66-82 | only the subtree at the key changes; the linked nodes stay a tree |
| `TrieNodes.PatternTrie.Add` | src/minicli/trie.go:39-85 | the linked nodes are extended in place to the trie that `Patterns.Add` describes, also when there is a conflict |
| `TrieNodes.PatternTrie.TryChild` | src/minicli/trie.go:111-172 | what one child contributes, for each kind of item |
| `TrieNodes.PatternTrie.Compile` | src/minicli/trie.go:97-209 | the result is a function of the trie and the input, whatever order the children are read in |
| `TrieNodes.CompileInput` | src/minicli/minicli.go:228 | what comes out of the linked trie is, item by item, what one of the registered patterns makes of the input |
| `TrieNodes.Register` | src/minicli/minicli.go:113-125 | handlers are registered one after the other until a conflict |
| `Validation.CheckPair` | src/minicli/validate.go:40-78 | the recursion with its loops decides `Ambiguous` |
| `Validation.AmbiguousSymmetric` | src/minicli/validate.go:40-78 | the order of the two patterns does not matter |
| `Validation.BothTakeAmbiguous` | src/minicli/validate.go:40-105 | two patterns that one input writes out are reported |
| `Validation.CleanIsExact` | src/minicli/validate.go:40-105 | a clean pattern and a proper one are reported exactly when some input writes out both |
| `Validation.UncleanMisleads` | src/minicli/validate.go:40-105 | for every pattern that is not clean there is a proper one that is reported although no input writes out both |
| `Validation.AmbiguousIff` | src/minicli/validate.go:40-105 | the validator is right about a pattern and every proper one exactly when the pattern is clean |
| `Validation.AsteriskIsOverreported` | src/minicli/validate.go:65-71 | a literal asterisk is taken for a wildcard, so patterns that share no input are reported |
| `Validation.EmptyIsOverreported` | src/minicli/validate.go:100-102 | leaving out an optional choice is taken for an empty option, with the same effect |
| `Validation.Validate` | src/minicli/validate.go:8-38 | accepts exactly the sets without duplicate texts and ambiguous pairs, whatever order the map is read in |
| `Validation.ExactOnce` | src/minicli/trie.go:39-85 | a pattern spells an input in full in at most one way |
| `Validation.ExactUnique` | src/minicli/validate.go:8-105 | after validation no input has two exact matches |
| `Validation.SpelledCompiles` | src/minicli/trie.go:97-209 | if the validator accepts, an input that spells a pattern in full compiles to the handler and arguments of that spelling |
| `Validation.WrittenOutCompiles` | src/minicli/trie.go:97-209 | if the validator accepts, every input that writes out a pattern compiles to that pattern |
| `Validation.NoTwoExact` | src/minicli/trie.go:192-195 | if the validator accepts, the branch for several exact matches is unreachable at every node and for every input |
| `Lexing.LexItem` | src/minicli/input.go:49-61 | a printed good item is read back, whatever follows it after a space |
| `Lexing.RoundTrip` | src/minicli/input.go:49-158 | a printed list of good items is read back unchanged |
| `Lexing.WordLex` | src/minicli/input.go:87-158 | a word without white space yields a failure, an item that took in white space, nothing more, or one item no longer than itself |
| `Lexing.NoCatchUp` | src/minicli/input.go:49-158 | a list that has fallen behind by an item never catches up, so an empty item is never made good by later ones |
| `Lexing.RoundTripIff` | src/minicli/input.go:49-158 | a printed list is read back exactly when every item is good |
| `Lexing.EmptiesDrop` | src/minicli/input.go:49-61 | empty items are lost in printing, good ones come back |
| `Lexing.BackslashedWord` | src/minicli/input.go:97-158 | a word with a backslash before each special character reads as the word |
| `Lexing.QuotedLineReads` | src/minicli/input.go:85-158 | every list of strings, empty ones included, is read from its line of quoted strings, with either quote and any white space |
| `Lexing.EscapeReads` | src/minicli/input.go:145-158 | what a backslash makes of each character |
| `Lexing.OpenEndsFail` | src/minicli/input.go:125-158 | a quote left open and a backslash at the end are errors |
| `Lexing.CommentEnds` | src/minicli/input.go:104-105 | what follows a comment character is not read |
| `Lexing.SpacesSeparate` | src/minicli/input.go:106-112 | white space of any kind separates words |
| `Lexing.OthersJoin` | src/minicli/input.go:106-114 | no other ASCII character does |
| `InputLexer.Lexer.EmitContent` | src/minicli/input.go:88-95 | content is emitted if there is some or if it was quoted |
| `InputLexer.Lexer.RunOutside` | src/minicli/input.go:87-123 | the outer state leaves the outcome of the whole input unchanged and consumes input or stops |
| `InputLexer.Lexer.RunQuote` | src/minicli/input.go:125-143 | so does the quoted state, or it reports the missing terminal |
| `InputLexer.Lexer.RunEscape` | src/minicli/input.go:145-158 | so does an escape, which returns to the state it came from, or it reports the bad character |
| `InputLexer.Lexer.Run` | src/minicli/input.go:63-83 | the state machine ends with exactly the items or the error of the specification |
| `InputLexer.Show` | src/minicli/input.go:49-61 | printing and joining in loops yields the printed form |
| `FileParts.ReadIsChunk` | src/iomeshage/local.go:157-193 | reading a part gives its bytes; exactly the parts below the number of parts are not empty |
| `FileParts.PartSizes` | src/iomeshage/handler.go:13-15 | every part but the last has ten mebibytes, the last has the rest |
| `FileParts.JoinedIsWhole` | src/iomeshage/local.go:36-42 | all parts joined in order are the file |
| `FileParts.ShuffledParts` | src/iomeshage/iomeshage.go:338-352 | the in-place shuffle lists every part once, for any random numbers |
| `Transfers.AnswerTruthful` | src/iomeshage/handler.go:155-220 | what a node serves, from the whole file or from a part of its own transfer, are the bytes of the file |
| `Transfers.OwnResponse` | src/iomeshage/handler.go:40-63 | a response with the number of a request answers that request |
| `Transfers.OneWaits` | src/iomeshage/handler.go:107-128 | no two fetches of a node wait for the same number |
| `Transfers.TakenIff` | src/iomeshage/handler.go:40-63 | a response carries a fetch on exactly while one waits for its number |
| `Transfers.SnoopKeeps` | src/iomeshage/iomeshage.go:584-606 | picking up a passing part writes the right bytes, and neither a completed part nor the one in flight |
| `Transfers.OverhearPicksUp` | src/iomeshage/iomeshage.go:584-606 | a passing part that is wanted and not being fetched is written once and completed; nothing else changes, and other messages change nothing |
| `Transfers.PickedUpIsSkipped` | src/iomeshage/iomeshage.go:502-509 | when the turn of a part that was picked up comes, the fetch goes on without a message |
| `Transfers.ThreeAttempts` | src/iomeshage/iomeshage.go:362-398 | a part that does not come is tried three times in all |
| `Transfers.StepKeeps` | src/iomeshage/iomeshage.go:324-606 | every step of every node keeps the invariant |
| `Transfers.FilesAreSource` | src/iomeshage/iomeshage.go:324-606 | in every run, completed parts hold the source's bytes and were written once, and every file in place is the source file |
| `Transfers.CopyNeverStuck` | src/iomeshage/iomeshage.go:402-422 | once fetching is over no part is missing when the file is put together |
| `Transfers.StepApproaches` | src/iomeshage/iomeshage.go:362-400 | every step of a fetch brings it closer to its end; no other step holds it up or rewrites a part |
| `Transfers.FetchEnds` | src/iomeshage/iomeshage.go:324-435 | a transfer takes at most 14 steps per part and 14 more, retries included |
| `Transfers.HolderAnswers` | src/iomeshage/handler.go:169-190 | a node that holds the file answers every request for a part of it that reaches it |
| `Transfers.PartCanCome` | src/iomeshage/iomeshage.go:502-543 | from any state, the part a fetch takes up next can be found, fetched and stored if some node holds the file |
| `Transfers.FetchCanSucceed` | src/iomeshage/iomeshage.go:324-435 | whatever failed before and wherever it is, a fetch that has not given up can end with the source file in place if some node holds it; on the last attempt at a part, once a node has been asked for it, that node must hold it |
| `Transfers.GetCanSucceed` | src/iomeshage/iomeshage.go:187-242 | a get of a file that another node holds can end with the source file in place |
| `Transfers.FileCanBeHad` | src/iomeshage/iomeshage.go:187-456 | in every reachable state, whatever is under way or has failed, a file that another node holds can come to be in place |
| `FileShare.Share.NewTID` | src/iomeshage/handler.go:107-128 | a fetch comes to wait for a number nobody waited for; the registered numbers stay those waited for |
| `FileShare.Share.UnregisterTID` | src/iomeshage/handler.go:130-141 | the fetch that waited for the number goes on, no other is affected, and the registered numbers stay those waited for |
| `FileShare.Share.HandleResponse` | src/iomeshage/handler.go:40-63 | a response is handed on exactly while a fetch waits for its number, which is when the protocol has a step that takes it |
| `FileShare.Share.TakeUp` | src/iomeshage/iomeshage.go:502-511 | a part that is there is skipped, otherwise it is marked in flight |
| `FileShare.Share.StorePart` | src/iomeshage/iomeshage.go:526-543 | the right bytes of a part that is not there keep the transfer in order; without a transfer nothing is written |
| `FileShare.Share.Mitm` | src/iomeshage/iomeshage.go:584-606 | a wanted part that is not being fetched is written, completed and recorded once; otherwise nothing changes |
| `FileShare.Share.HandlePart` | src/iomeshage/handler.go:155-220 | acknowledged exactly when the file or the completed part is there, with its bytes if they were asked for |
| `FileShare.Share.CopyParts` | src/iomeshage/iomeshage.go:402-422 | succeeds exactly when all parts are there, and the copy is then the source file |

## Left out

- Sockets, gob encoding, dialling, acknowledgements and time-outs of the mesh; links are reliable and the client graph does not change while a message or an announcement is under way.
- A stored adjacency is not claimed to belong to the highest accepted number: storing and flooding are separate goroutines.
- Sequence numbers do not wrap around at 64 bits.
- `QueuedVMs.Less` and the counts it reads: the sort is any permutation of the queue, and its effect on the order of the queue field is not kept.
- VmScheduler.Scheduler.Schedule: a single host takes the whole queue without any limit being looked at, as the code does.
- Load ratios are exact, not floating point; hosts have at least one CPU and some memory, VM and host names are distinct, and coschedule limits are -1 or more.
- igor's `Housekeeping`, `Install`, `PurgeFiles`, power, DNS, VLANs, PXE names and time limits; cleaning up is a flag of `Delete`. Numbers drawn for reservations are a parameter, not drawn in a loop.
- Reservation hosts are compared as they are stored; times are integers above zero.
- Compilation.CompileSound: patterns that begin with a nested command are excluded, since compiling them would not end.
- Validation.SpelledCompiles: patterns with nested commands are excluded, since the validator takes a nested command for a single item.
- Validation.AmbiguousIff: patterns with nested commands, and patterns with optional items or lists before the end, which the pattern syntax rules out, are excluded.
- Help, suggestions, aliases, history, the preprocessor, output formats and the lexer of patterns; `Record`, `Preprocess` and `Original` of a command.
- Which characters beyond ASCII count as printable is a parameter; input is a sequence of valid characters.
- Globs, directories, permissions, paths, streaming and the queue of three concurrent transfers.
- Local disk operations succeed, a node has one transfer per file name at a time, transfer numbers are not reused, and a file name has one content in the mesh; answering a request is one step.
- bridge, container, kvm, dnsmasq, router, plumber, miniccc, minidoc and igorweb: wrappers around other programs.
