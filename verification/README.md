# Scylla cluster tests: a verified model

A Dafny model of the algorithmic core of the Scylla cluster test framework, with proofs.

| file | what it models |
|---|---|
| `Digraph.dfy`, `Tarjan.dfy`, `CyclicImports.dfy`, `Ordering.dfy` | the cyclic-import check: Tarjan's components, the reported edges, the cycle shown, the allowlist |
| `BringUp.dfy` | bringing up the nodes of a cluster: parallel setup, collection, parallel or sequential startup, as a transition system over every interleaving |
| `Templates.dfy`, `Placeholders.dfy`, `Overtaking.dfy`, `StepCommands.dfy`, `Text.dfy` | filling `$name` placeholders of a stress command: the loop, when it is right, why it is wrong otherwise, and the step duration |
| `FirewallLines.dfy`, `Firewall.dfy` | finding the blocking rules in a netfilter dump |
| `Bisection.dfy`, `LogSearch.dfy` | seeking a log file to a time by bisecting byte offsets |
| `Backtraces.dfy` | the thread that decodes and publishes backtraces |
| `Columns.dfy`, `Xml.dfy` | the two-column progress chart and its text escaping |
| `Steps.dfy` | naming the steps of a gradual-throughput run |
| `Spreading.dfy` | numbering nodes and spreading them over zones and racks |
| `Basics.dfy` | what the other modules share |

The specifications do not refer to the algorithms: components are defined by walks in the
graph, placeholder filling by one simultaneous substitution, the firewall scan by the tree the
dump was printed from, the log search by a linear scan, the column split by all other splits,
the bring-up protocol by what holds in every state of every run.

`dafny verify dfyconfig.toml` checks the whole project.

## Modelling choices

- Iterating over a Python set is a choice of any remaining element, so the results about
  components hold for every iteration order. The visits run over shared mutable state, as in
  the source; the running visits are a ghost set.
- In the bring-up protocol a node is its position in the node list, so nothing assumes that the
  list has no repeats. A worker finishing and putting its result on the queue is one step.
  Daemon workers go on after the coordinator has failed. Elapsed time is an input of each turn.
- `find_cycles` is documented to return the edges that take part in any cycle. The code skips
  components of one node, so a module that only imports itself is not listed
  (`CyclicImports.LoneSelfLoopMissed`, exact condition in `CyclicImports.SelfLoopListedIff`);
  extraction drops self-imports before that can matter.
- A template is split at its `$` signs into holes. A hole is overtaken when the hole after it is
  filled before some name that it starts is tried: a value can then complete that name.
  `Placeholders.NoOvertake` excludes this, and needs only the template and the names. The loop
  is right for all values without `$` if and only if it holds (`Overtaking.LoopExact`). With the
  duration, which is replaced last whatever its length, a second condition is needed: no hole
  meant for the duration may be filled by a name that starts `duration`
  (`StepCommands.StepExact`).
- The log search also covers logs with untimed lines. `open_system_log` fails on an unset
  variable exactly when the log has at most one line, and can end without yielding a handle only
  when the log ends in untimed lines.
- The regular expressions of the firewall scan are written out over Unicode white space and ASCII
  word characters. The trees are judged by what their lines say, in terms of concatenation. The
  lines of the dump are an input.

## Model

| member | source | states |
|---|---|---|
| `Tarjan.StronglyConnectedComponents` | scripts/detect_cyclic_imports.py:310-347 | for every finite graph and visiting order: the components are non-empty, pairwise disjoint, cover every key and every target, are strongly connected, and come in reverse topological order |
| `Tarjan.Finder.StrongConnect` | scripts/detect_cyclic_imports.py:318-341 | a visit keeps the whole invariant (on-stack set equals the stack, indices increase up the stack and are given out once each, low-links are witnessed, finished nodes lead only to numbered ones), leaves its caller's stack as a prefix, never changes earlier numbers, and terminates because unnumbered nodes run out |
| `Tarjan.Finder.Look` | scripts/detect_cyclic_imports.py:326-331 | one target: visit it, or lower the low-link, or skip it; the invariant of the running visit is kept with the target crossed off |
| `Tarjan.Finder.PopComponent` | scripts/detect_cyclic_imports.py:334-341 | popping down to the root moves exactly the stack above it into one new component |
| `Tarjan.Finder.Components` | scripts/detect_cyclic_imports.py:343-347 | after the outer loop all keys and targets are numbered, each with its own number, nothing is left on the stack, and the components decompose the graph |
| `Tarjan.TreeVisiting` | scripts/detect_cyclic_imports.py:327-329 | folding in the low-link of a target just visited keeps the invariant of the visit |
| `Tarjan.BackVisiting` | scripts/detect_cyclic_imports.py:330-331 | lowering to the index of a target on the stack keeps the invariant of the visit |
| `Tarjan.RootReturned` | scripts/detect_cyclic_imports.py:333-341 | when the low-link equals the index, the nodes above form a component no edge leaves except into earlier ones |
| `Tarjan.InnerReturned` | scripts/detect_cyclic_imports.py:333-333 | otherwise every node left on the stack still reaches a running visit below it |
| `Tarjan.SharedIffMutual` | scripts/detect_cyclic_imports.py:310-347 | two nodes share a component if and only if each reaches the other |
| `Tarjan.EdgesDescend` | scripts/detect_cyclic_imports.py:310-347 | an edge never goes to a component emitted later, and stays in its own exactly when the target reaches back |
| `Tarjan.DecompositionUnique` | scripts/detect_cyclic_imports.py:343-347 | the visiting order cannot change which components there are |
| `CyclicImports.FindCycles` | scripts/detect_cyclic_imports.py:194-208 | lists once each, by source and then by target in dictionary order, exactly the edges on a closed walk whose source shares a cycle with another module |
| `Ordering.LexIsBefore` | scripts/detect_cyclic_imports.py:208-208 | the order of the list is dictionary order: a proper prefix comes first, otherwise the first differing character decides |
| `CyclicImports.ReportedIffOnCycle` | scripts/detect_cyclic_imports.py:182-208 | without self-imports an edge is listed if and only if its target reaches its source; one-way bridges never are |
| `CyclicImports.LoneSelfLoopMissed` | scripts/detect_cyclic_imports.py:194-206 | a lone self-import is on a closed walk and is not listed |
| `CyclicImports.SelfLoopListedIff` | scripts/detect_cyclic_imports.py:194-206 | a self-import is listed if and only if its module is on a longer cycle too |
| `CyclicImports.FindPath` | scripts/detect_cyclic_imports.py:405-420 | the depth-first search terminates; it returns a walk from start to end that repeats no node if and only if end is reachable, and the empty list otherwise; at each node the walk goes on to the first successor in dictionary order that leads to the end without coming back |
| `CyclicImports.DictionaryFirstUnique` | scripts/detect_cyclic_imports.py:405-420 | only one walk is like that, so the result is determined |
| `CyclicImports.FindCyclePath` | scripts/detect_cyclic_imports.py:398-402 | for every edge on a cycle, a closed walk that begins with the edge, repeats no node before it closes, and goes on in dictionary order |
| `CyclicImports.LoadedIffAllowed` | scripts/detect_cyclic_imports.py:211-222 | for any list of entries, an edge is loaded if and only if some entry has its source as source and its target as target, neither of them empty |
| `CyclicImports.WrittenInOrder` | scripts/detect_cyclic_imports.py:357-359 | the list written has one entry for each edge, source as source and target as target, in dictionary order |
| `CyclicImports.AllowlistRoundTrip` | scripts/detect_cyclic_imports.py:211-222 | loading what was written recovers the edges, except those with an empty module name |
| `CyclicImports.Check` | scripts/detect_cyclic_imports.py:251-268 | exit code 0 if and only if every reported edge has an entry of its own; otherwise the new edges are exactly the others, in dictionary order, and the cycle shown is the one through the first of them |
| `CyclicImports.UpdateThenCheck` | scripts/detect_cyclic_imports.py:253-268 | updating the allowlist and checking the same graph passes if and only if no reported edge touches an empty module name |
| `CyclicImports.CheckWithoutAllowlist` | scripts/detect_cyclic_imports.py:258-268 | a check with an empty allowlist passes on a graph without self-imports if and only if the modules can be numbered so that every import goes down; then every component is one module and imports lead to components emitted earlier |
| `CyclicImports.NumberedIffClean` | scripts/detect_cyclic_imports.py:182-208 | such a numbering exists if and only if no module imports itself and no edge is reported |
| `BringUp.RunInv` | sdcm/cluster.py:5847-5876 | the protocol invariant holds in every state of every interleaving |
| `BringUp.Partition` | sdcm/cluster.py:5784-5804 | in every state, not-started, running, queued, received and consumed nodes partition the node list, in each phase |
| `BringUp.CountMeansAll` | sdcm/cluster.py:5853-5854 | as many received results as nodes means that every node reported, once, and without error |
| `BringUp.StartupWaitsForSetup` | sdcm/cluster.py:5850-5860 | in every run no startup begins until every setup result has been received without error |
| `BringUp.MethodNeedsEveryNode` | sdcm/cluster.py:5861-5876 | in every run the wrapped method runs only after every node succeeded in both phases, and for a Scylla cluster only if there is a node |
| `BringUp.FailureIsReal` | sdcm/cluster.py:5786-5794 | a raised failure names a node that failed; everything received before it succeeded; what the drain takes is reported truthfully |
| `BringUp.DrainLeavesNothing` | sdcm/cluster.py:5717-5726 | when the drain ends, every result posted so far has been received or taken |
| `BringUp.TimeoutHasCause` | sdcm/cluster.py:5803-5812 | a run times out only if a timeout is set and some turn of a collecting loop began later than that |
| `BringUp.TimesOutExactly` | sdcm/cluster.py:5803-5812 | in every run a turn of a collecting loop times out if and only if a limit is set, the turn began more than that many minutes after the start, and it took no failure; the timeout names its phase |
| `BringUp.FailsExactly` | sdcm/cluster.py:5786-5794 | in every run a failure is raised if and only if a turn takes one off the queue, whatever the time, and leaves the drain exactly when the queue is empty |
| `BringUp.EndsExactly` | sdcm/cluster.py:5864-5876 | in every run the up check leads to the method if and only if the cluster is not a Scylla cluster, or has a node and passes |
| `BringUp.LateTurnEnds` | sdcm/cluster.py:5784-5812 | while results are missing a turn can be taken at any time, and one taken past the limit ends the loop: a hung node cannot keep the coordinator |
| `BringUp.WorkersAreFree` | sdcm/cluster.py:5847-5860 | in every state of every run a running worker may still report, either way |
| `BringUp.ReportsInOrder` | sdcm/cluster.py:5757-5804 | in every run, what was received and consumed followed by what is queued is what the workers reported, in that order and with those outcomes |
| `BringUp.MethodNeedsUpCheck` | sdcm/cluster.py:5864-5876 | in every run the wrapped method follows an up check, which a Scylla cluster must have passed |
| `BringUp.HealthyRunStaysOnCourse` | sdcm/cluster.py:5784-5876 | as long as no node fails, no time limit passes and the check is up, no run fails, times out or aborts: it can only end by running the method |
| `BringUp.SequentialStartsOneAtATime` | sdcm/cluster.py:5856-5860 | without parallel startup, at most one node is starting, all before it have reported and none after it has begun |
| `BringUp.SequentialFailureIsFirst` | sdcm/cluster.py:5856-5862 | without parallel startup, a failing node stops nothing until all have run, and the failure raised is that of the first failing node in list order |
| `BringUp.StepSpends` | sdcm/cluster.py:5847-5876 | every step either is an idle poll that changes nothing or strictly uses up a budget |
| `BringUp.NeverStuck` | sdcm/cluster.py:5847-5876 | the protocol cannot deadlock, and a run is over after at most 6n + 5 changes of state |
| `Placeholders.FillTemplate` | performance_regression_gradual_grow_throughput.py:468-472 | the loop of replacements, longest name first, equals one simultaneous longest-match substitution whenever no hole is overtaken and names and values have no `$` |
| `StepCommands.StepCommand` | performance_regression_gradual_grow_throughput.py:466-476 | the whole command with the duration filled last is one substitution of parameters and duration when no hole is overtaken and the parameters are safe for the duration |
| `Placeholders.SequentialIsMunch` | performance_regression_gradual_grow_throughput.py:471-472 | any order that puts no name before a longer one it starts, and overtakes no hole, gives the simultaneous substitution |
| `Placeholders.SortKeepsTies` | performance_regression_gradual_grow_throughput.py:471-471 | the sort by length is stable: names of one length keep the order of the dictionary |
| `Overtaking.LoopExact` | performance_regression_gradual_grow_throughput.py:471-472 | for a template and a list of names: the loop is the simultaneous substitution for all values without `$` if and only if no hole can be overtaken |
| `Overtaking.OrderIrrelevant` | performance_regression_gradual_grow_throughput.py:471-471 | the command does not depend on the order of the dictionary when the names differ in length, or when neither order overtakes a hole |
| `Overtaking.OrderMatters` | performance_regression_gradual_grow_throughput.py:471-472 | when one order of the dictionary overtakes a hole and another does not, some values give two different commands |
| `Placeholders.SeparatorSuffices` | performance_regression_gradual_grow_throughput.py:471-472 | a character that no name contains, between each `$` and the next, keeps every hole from being overtaken, in whatever order the names are tried |
| `Overtaking.AdjacentPlaceholdersCollide` | performance_regression_gradual_grow_throughput.py:471-472 | for any two equally long names, one of which a value of the other can complete, the sorted loop gives one of two commands according to the order of one and the same dictionary |
| `StepCommands.DurationExact` | performance_regression_gradual_grow_throughput.py:471-476 | for given parameters and duration: the command is the one substitution on every template without an overtaken hole if and only if `duration` is itself a parameter, or no name starts it, or the longest one that does stands for a value that makes up the same text |
| `StepCommands.StepExact` | performance_regression_gradual_grow_throughput.py:466-476 | for a given template and names: the command is the one substitution for all values and durations without `$` if and only if no hole is overtaken and no hole meant for the duration is filled by a name that starts `duration` |
| `StepCommands.DurationShadowed` | performance_regression_gradual_grow_throughput.py:471-476 | for all unsafe parameters the command made from `$duration` is not the duration |
| `StepCommands.DurationPlaceholder` | performance_regression_gradual_grow_throughput.py:473-476 | for safe parameters `$duration` becomes the parameter of that name, or else the duration of the step |
| `Firewall.FindBlockingFirewallRules` | sdcm/cluster.py:4560-4580 | on every dump printed from well-formed sections it returns, in order, exactly what blocks according to the trees and to what their lines say |
| `FirewallLines.VerdictSaid` | sdcm/cluster.py:4571-4571 | the verdict test accepts exactly the lines with `drop` or `reject` as a word of its own |
| `FirewallLines.IptablesSaid` | sdcm/cluster.py:4569-4569 | the iptables tests accept exactly `-A INPUT ` with `-j` and `DROP` or `REJECT` further on, and `:INPUT` followed by one of them |
| `FirewallLines.HookMentioned` | sdcm/cluster.py:4573-4573 | the hook test accepts exactly the lines that contain `hook input` |
| `FirewallLines.PolicySaid` | sdcm/cluster.py:4575-4575 | the policy test accepts exactly the lines with `policy`, white space and `drop` or `reject` |
| `FirewallLines.NetBalance` | sdcm/cluster.py:4577-4577 | the count is the opening less the closing braces of the line |
| `FirewallLines.StripTrims` | sdcm/cluster.py:4564-4564 | stripping takes off exactly the white space at the two ends |
| `FirewallLines.TrimsUnique` | sdcm/cluster.py:4564-4564 | there is no other way to do so |
| `Firewall.LineReported` | sdcm/cluster.py:4565-4576 | for any line in any state: when it is reported, by what it says |
| `Firewall.LineMoves` | sdcm/cluster.py:4565-4579 | for any line in any state: how it moves the depth and the input chain, by what it says |
| `Firewall.InputChainReported` | sdcm/cluster.py:4563-4580 | for any table with a chain hooked into input: reported are its blocking policy and then exactly its lines that drop or reject |
| `Firewall.ScanTree` | sdcm/cluster.py:4563-4580 | the depth counter follows the tree: it comes back after every block, keeps an enclosing chain, is in an input chain exactly when the block read has been hooked, and reports exactly the hooked chain's blocking policy and its later drops and rejects, up to the closing line |
| `Firewall.ScanDump` | sdcm/cluster.py:4563-4580 | the same for a whole dump of several headed sections, from any state |
| `Firewall.HeaderSeparates` | sdcm/cluster.py:4565-4568 | for any lines at all, a `#` header makes the scan of what follows independent of what came before |
| `Firewall.UnhookedSilent` | sdcm/cluster.py:4571-4576 | from any state the scan of a headed section reports nothing from nftables blocks not hooked into input |
| `LogSearch.OpenSystemLog` | sdcm/cluster.py:2387-2427 | on a sorted log, whenever a handle is given out, every older line is behind it, and it is where a linear scan stops or one matching line further (two when the first line matches); it fails on an unset variable if and only if the log has at most one line; otherwise a handle is given out if and only if the halving of offsets avoids the untimed end of the log, which a matching line after the middle offset settles; the number of probes is logarithmic |
| `LogSearch.Bisect` | sdcm/cluster.py:2396-2419 | the loop does the search that the results below are about, with as many probes |
| `LogSearch.SearchedLog` | sdcm/cluster.py:2396-2427 | the search ends at the least offset whose following line is not older, its last probe there or just before; it gives up only on a log that ends untimed |
| `LogSearch.MiddleDecides` | sdcm/cluster.py:2398-2419 | the first probe is in the middle: a matching line after it means a handle, untimed lines up to the end mean none |
| `LogSearch.LateTargetGivesUp` | sdcm/cluster.py:2404-2415 | on a sorted log that ends untimed, no handle for a target later than all of it |
| `LogSearch.MarksExist` | sdcm/cluster.py:2396-2419 | every log has the three offsets that decide its search |
| `Bisection.SearchLands` | sdcm/cluster.py:2396-2419 | a search gives up if and only if halving the offsets towards the first that is not older stops among the untimed ones |
| `Bisection.SearchSound` | sdcm/cluster.py:2396-2419 | for any probe: the search ends next to an older offset, at a probed one that is not, or gives up at an untimed one |
| `Bisection.SearchIsLogarithmic` | sdcm/cluster.py:2396-2399 | two to the number of probes is at most twice the number of offsets |
| `LogSearch.Probe` | sdcm/cluster.py:2400-2415 | a probe judges the first timed line after the line it lands in, and leaves the position behind it |
| `LogSearch.OlderMonotone` | sdcm/cluster.py:2416-2419 | on a sorted log the answers of the probes are monotone in the offset |
| `LogSearch.BoundaryLands` | sdcm/cluster.py:2416-2427 | where the handle is left, case by case, compared with a linear scan |
| `Backtraces.EveryEventPublishedOnce` | sdcm/cluster.py:2471-2496 | over every run, also one ended by a closed queue, each event taken is published once in queue order, decoded exactly when the service gave text for it; a termination exit leaves the queue empty and everything published; a stop mark is the last thing taken |
| `Backtraces.ClosedHasCause` | sdcm/cluster.py:2486-2489 | the closed-queue exit needs a turn whose `get` or issue lookup raised saying so |
| `Backtraces.RunExits` | sdcm/cluster.py:2475-2496 | in every run each turn that is reached ends the thread for a stop mark, a closed exception, or the termination event with nothing left queued, and only then |
| `Backtraces.TerminatedHasCause` | sdcm/cluster.py:2495-2496 | the thread terminates only in a turn that finds the termination event set and leaves the queue empty |
| `Backtraces.ThreadGoesOn` | sdcm/cluster.py:2484-2496 | without a stop mark, a closed exception or the termination event the thread goes on, however often the queue runs empty |
| `Backtraces.TurnMoves` | sdcm/cluster.py:2475-2478 | a turn takes exactly the head of the queue, if there is one and `get` does not raise |
| `Backtraces.RunConserves` | sdcm/cluster.py:2473-2478 | jobs leave the queue in arrival order, none lost and none twice |
| `Backtraces.FailuresAreSpaced` | sdcm/cluster.py:2508-2523 | after a failed round the service is not asked about that build for 900 seconds |
| `Backtraces.SkippedOnlyInCooldown` | sdcm/cluster.py:2504-2510 | a known build goes unasked only if a round for it failed less than 900 seconds before |
| `Backtraces.Decoder.DecodeBacktrace` | sdcm/cluster.py:2471-2496 | the loop performs the run that the results above are about, loses nothing between the queue and what it took, and keeps the invariant of the thread |
| `Backtraces.Decoder.OneTurn` | sdcm/cluster.py:2473-2496 | a turn, whether `get` works, times out or raises, conserves taken and queued jobs, keeps the published events equal to the events taken, and exits for one of the three reasons and only then |
| `Backtraces.Decoder.DecodeBacktraceViaService` | sdcm/cluster.py:2480-2525 | the service goes unasked exactly for a missing build id or a build in cooldown; the decoded events stay those answered; failed rounds stay 900 seconds apart and every cooldown stays owed to a failed round |
| `Columns.DistributeColumns` | scripts/generate_progress_svg.py:195-205 | places each listed domain once and in order, on the left unless that column is the taller; the columns differ by at most the tallest domain; the taller is at most 3/2 the taller of any other split |
| `Columns.ListedOne` | scripts/generate_progress_svg.py:198-199 | a domain is listed if and only if it has plans, 32 high for its header, 28 for each plan and 16 of padding |
| `Columns.ListedInOrder` | scripts/generate_progress_svg.py:198-199 | the list follows the order, piece by piece |
| `Columns.BalancedIsNearOptimal` | scripts/generate_progress_svg.py:195-205 | any split that balanced is within 3/2 of every split |
| `Xml.EscapeRoundTrip` | scripts/generate_progress_svg.py:86-87 | decoding recovers every string; the output has no bare markup character and every ampersand starts one of the four entities (sections 2.4 and 4.6 of XML 1.0) |
| `Xml.UnescapeRoundTrip` | scripts/generate_progress_svg.py:86-87 | every string of that form is an output: escaping its decoding gives it back |
| `Xml.EscapeIsPerCharacter` | scripts/generate_progress_svg.py:86-87 | the four replacements in this order act on each character independently |
| `Xml.MarkupEscaped` | scripts/generate_progress_svg.py:86-87 | the entities are those of the XML standard for the four characters |
| `Steps.StepNames` | performance_regression_gradual_grow_throughput.py:505-523 | position i gets its base name, with its occurrence number when the name is repeated |
| `Steps.DistinctIffNoClash` | performance_regression_gradual_grow_throughput.py:505-523 | the names are pairwise distinct if and only if no name used once equals a numbered form of a repeated one |
| `Steps.DistinctUpTo` | performance_regression_gradual_grow_throughput.py:505-523 | the same for the names of the first steps only, with the numbers given out there |
| `Steps.StepsDistinct` | performance_regression_gradual_grow_throughput.py:534-549 | with differing thread counts the names are always distinct; otherwise exactly that condition on the rates decides |
| `Steps.ThreadNameInjective` | performance_regression_gradual_grow_throughput.py:545-545 | a name with a thread count tells its rate and its count |
| `Steps.ThreadNameExample` | performance_regression_gradual_grow_throughput.py:545-545 | its form, for rate 100 and 50 threads |
| `Steps.ThreadsRepeated` | performance_regression_gradual_grow_throughput.py:564-566 | a single thread count serves all steps; several are taken as they are |
| `Steps.PlainRatesNeverClash` | performance_regression_gradual_grow_throughput.py:538-549 | rates without an underscore always give distinct names |
| `Steps.ClashExample` | performance_regression_gradual_grow_throughput.py:505-523 | rates `100_1`, `100`, `100`, which Python reads as numbers: three steps leave two entries in the summary |
| `Steps.RunGradualIncreaseLoad` | performance_regression_gradual_grow_throughput.py:614-658 | as many steps run as there are rates and thread counts, one count serving all; each name is its rate, with its thread count when these differ, and after that at most a number; the summary has one entry per name, from the last step of that name; so it keeps every step whenever thread counts differ, and otherwise if and only if the rates of those steps do not clash |
| `Spreading.Cluster.constructor` | sdcm/cluster.py:4745-4761 | the nodes of all datacenters are the specified layout and the counter equals the number asked for |
| `Spreading.Cluster.AddNodes` | sdcm/cluster_azure.py:464-479 | appends `count` nodes numbered on from the counter, racks given or taken from the number |
| `Spreading.NodesPerZone` | sdcm/cluster.py:4749-4751 | each zone gets its round-robin share |
| `Spreading.SumHitsTotal` | sdcm/cluster.py:4749-4751 | the shares add up to the number asked for |
| `Spreading.HitsFormula` | sdcm/cluster.py:4750-4751 | a round robin gives every remainder the quotient, and one more to the first remainders met |
| `Spreading.LayoutIndices` | sdcm/cluster_azure.py:468-477 | as many nodes as asked for, numbered from 1 without gap or repeat; those of a datacenter stand next to each other, as many as were asked for there |
| `Spreading.LayoutRacks` | sdcm/cluster.py:4752-4761 | racks taken from numbers are the number modulo the racks; racks taken from zones go through the zones in order |
| `Spreading.ZoneShares` | sdcm/cluster.py:4749-4761 | with racks from zones each gets its equal share and the first ones one node more |
| `Spreading.RacksBalanced` | sdcm/cluster.py:4752-4761 | within each datacenter any two racks differ by at most one node, whether racks come from zones or from node numbers |

## Left out

- Parsing Python files, walking the file system and the YAML text of the allowlist: the graph and the list of entries are inputs.
- Severity rules, Argus updates, package updates before setup and `task_done` in the bring-up wrapper: side effects outside the protocol.
- Exceptions from `publish` and from the final `empty()` in the decoding thread, and the cache in front of the service: a cached answer counts as a round.
- Byte-level UTF-8 seeking in the log, where a character is taken as one byte, and fractions of a second, which the source drops from the time asked for.
- Splitting the firewall dump into lines, word characters outside ASCII, and a hook on the line that opens or closes a block, where nftables does not print it.
- `Firewall.ScanTree`: assumes that an input chain does not enclose another one, which nftables cannot express; the scan would drop the outer chain at the end of the inner one.
- Names and values that contain a `$`: the loop substitutes inside such values, and the results about templates do not cover them.
- The rest of the chart (header, statistics, bars, row positions, titles cut after escaping): fixed formatting of numbers that the other files supply.
- The warm-up, throttle formatting and stress threads of the throughput test: commands and numbers passed on to tools.
- `add_nodes` of the other cloud backends, and node creation failing half-way.
- Cloud APIs, remote commands, monitoring and the command-line tools of the repository: input and output without an algorithm of their own.
