# Graph, run and accounting logic, verified

This project models, in Dafny, the parts of the repository that hold its graph, run and accounting
logic, and proves what they promise.

- **Workflow editor.** Workflows are lists of nodes that name one another in their `needs` lists and in
  their text. `Graph`, `UniqueIds`, `Contraction` and `Workflow` hold walks, the search for nodes on
  paths and fresh ids; `RepeatZone` wraps a path set into a repeat zone, `CopyNodes` copies nodes,
  `RenameRefs` renames output fields through nested scopes. References are structured values, each with
  its kind, node id and path.
- **First Proof adapter.** `StageMachine` runs a problem through its round schedule, with every result
  of a subprocess, the compiler and the disk, and an interruption at every await, as an input.
  `EventSnapshot` reads the event log incrementally. `ProblemSlots` limits how many problems run at once
  until the research deadline.
- **Budgets.** `Budget` has the trackers as objects that charge up their parents and the checks that read
  them; `BudgetTree` the forest as a value; `BudgetWarnings` what checks report; `BudgetOvershoot`
  workers that check and then spend, interleaved in any way.
- **Provider accounting.** `ProviderLedger` is the log of attempt revisions and its replay,
  `ProviderUsage` what requests, responses and estimates record, `Reconciliation` receipts against bills.
- **Events and resume.** `EventLog` has torn appends and the newline repair, `PayloadSpill` long strings
  moved to blob files, `ResumeCache` agent calls replayed over crashed and resumed runs, `CallTree` the
  call tree rebuilt from the log with its costs.
- **CLI usage.** `CliUsage` parses and prices the usage of command-line workers.

A module named `...Properties` (or `StageMachineSafety`, `StageMachineTexts`, `BudgetWarnings`, `BudgetChecks`,
`BudgetOvershoot`, `BudgetWorkers`, `ReconciliationSums`, `ResumeCacheRuns`, `PayloadText`) holds theorems about
the module it is named after. Code that updates objects or loops is modelled by classes and methods, proved
against functions; the theorems say what these functions come to, over every input and every run, from
positions, sums and literal values of the inputs. Money and times are `real`; codecs of JSON text, clocks and
the answers of subprocesses are parameters. Call ids are abstract values where only their equality matters.

`dafny verify dfyconfig.toml` checks the whole project.

## What is not so

The proofs found places where the code does less than its documentation or its callers may expect. Each
is stated by a lemma, with the exact condition under which the promise holds where there is one.

- Wrapping or copying can close a cycle when a node already names the id that the zone or the copy
  receives, exactly as `RepeatZoneProperties.WrapKeepsAcyclic` and `CopyNodesProperties.CopyAcyclicExactly`
  say (`DanglingMentionMakesCycle` in both modules).
- A wrap leaves alone other zones' bodies, state updates, conditions and `max_iterations`, parent references
  in their `best_tex` and outputs, and names in Python code or under several parents. These go on naming moved
  nodes (`RepeatZoneProperties.NothingNamesMovedNodes`, with an input for each: `BodyTextStillNamesMoved`,
  `BestTexStillNamesMoved`, `ConditionStillNamesMoved`, `RoundsStillNameMoved`, `DeepTextStillNamesMoved`).
  Other zones' outputs and `best_tex` are re-pointed as if they stood at the top level (`ZoneOutputStillReads`).
- After a wrap, references to moved nodes other than the end node, and to fields the end node does not
  declare or a run keeps for itself, no longer read them (`RepeatZoneProperties.EndFieldStillRead`, `IntermediateFieldLost`); nor does
  another zone's `max_iterations`, whatever it names (`RoundsStillRead`).
- A wrapped body drops `best_tex` text, and with it the order only that text said
  (`RepeatZoneProperties.BodyKeepsOrder`).
- Copying a zone captures parent references nested two or more scopes deep, and names in its outputs and
  `best_tex`, that name a copied id (`CopyNodesProperties.CopiedStepMeant`, `ZoneOutputsMeant`,
  `NestedParentCaptured`), while its own condition and `max_iterations` go on reading the originals
  (`CopyFollows`, `CopiedConditionReadsOriginal`).
- Renames are applied one after another, so a chained pair is applied twice
  (`RenameRefsProperties.SequentialIsSimultaneous`); a step id shared by two chains and a zone output that
  reads a body node are renamed wrongly (`RenameMeant`, `SharedStepIdRenamed`, `ZoneOutputMissed`).
- A verified solution can be lost after a budget stop or when the first stage ends unrecorded
  (`StageMachineSafety.LostExactly`), a cut between write and record leaves the file ahead of the returned
  result (`ResultOnDiskExactly`), and the result can be the fallback after a verified text
  (`FallbackReturnedExactly`).
- One torn UTF-8 character makes `_read_jsonl_events` raise, where the comment in `_append` promises that
  a crash fragment is preserved without harm (`EventLogProperties.TextReadBack`).
- Two concurrent calls with one cache key persist two values, and an answer is replayed only if its value
  was stored last (`ResumeCacheProperties.RacingCallsOverwrite`, `CrashReplaysExactly`, `ChainExactly`).
- A budget warning flagged first by a check that then raises is never reported
  (`BudgetWarnings.ReportedExactly`, `RaiseLosesWarning`).
- The provider log has no newline repair: after a torn line the next update is lost, and the one after
  that makes the log unreadable (`ProviderLedgerProperties.TearMustBeLast`).
- A call that is billed again after a round of adjustments was charged back can be billed twice
  (`ReconciliationProperties.RoundsSettleExactly`, `LateExactly`, `LateCallBilledTwice`).
- A spilled string with a carriage return does not read back, since text files are read with universal
  newlines (`PayloadSpillProperties.SeriesRoundTrip`, `SpillRoundTrip`).
- Calls on a cycle of parents appear under no root (`CallTreeProperties.CostConserved`).
- One request for all can cost less than its turns (`CliUsageProperties.TurnsCostAtMostOneRequest`), as
  when turns differ in reporting cache writes (`MixedReportsCostLess`), and a missing count of cache writes
  can be priced below a reported one (`MissingCountExactly`, `MissingCountBesidesInput`).

## Model

| member | source | states |
|---|---|---|
| Graph.Reachable | app/dev_data.py:4022-4031 | the search with an explicit stack ends, and returns exactly the nodes some directed walk leads to |
| Graph.ReverseLeads | app/dev_data.py:3997-4004 | a walk leads from a to b in the reversed graph exactly when one leads from b to a in the graph |
| Workflow.TopLevelAdjacency | app/dev_data.py:4008-4019 | the successor map has an edge exactly where a listed node names another listed node in its needs or in its text |
| Workflow.AdjacencyUnique | app/dev_data.py:4008-4019 | two graphs of one node list have the same edges, so results do not depend on the order in which references are found |
| Workflow.NodeIdsOnPaths | app/dev_data.py:3984-4005 | the ids returned are exactly those on some directed walk from start to end; it fails exactly when an end is unknown or no walk exists |
| UniqueIds.UniqueId | app/dev_data.py:6540-6547 | the search for a free id ends, returns the first free candidate, and that id was not occupied |
| UniqueIds.DecimalSpells | app/dev_data.py:6540-6547 | the counter in an id is written in decimal digits that spell it, without a leading zero |
| UniqueIds.AllocateIds | app/dev_data.py:3634-3642 | ids given out one after another are each the first free one given all before |
| UniqueIds.GivenDistinct | app/dev_data.py:3634-3642 | no id is given twice and none was occupied |
| UniqueIds.IdMapFresh | app/dev_data.py:3634-3642 | the map from old to new ids is injective and its values were all free |
| Contraction.OnPathsConvex | app/dev_data.py:3984-4005 | the nodes on walks between two nodes are convex: a walk that leaves the set does not return to it |
| Contraction.ContractedOrder | app/dev_data.py:3411-3459 | after contracting a set, two outside nodes are ordered exactly if they were, or one came before the set and the other after it |
| Contraction.ContractionAcyclic | app/dev_data.py:3411-3459 | contracting a convex set of an acyclic graph makes a cycle exactly when an extra edge leads from the zone to a node before the set |
| RepeatZone.SelectForRepeat | app/dev_data.py:4034-4051 | the nodes chosen are those of the path set, in list order; the error cases are the source's |
| RepeatZone.PartitionOrder | app/dev_data.py:4034-4051 | the nodes that move and those that stay each keep their order |
| RepeatZone.ReplaceNeeds | app/dev_data.py:3792-3812 | needs on moved nodes leave and, if there were any, one need on the zone is appended unless it is there; the others stay in order, each once |
| RepeatZone.SyncLoopBodyNeeds | app/dev_data.py:5591-5624 | each body step waits for what its own text names in the body, besides the needs that are its own |
| RepeatZone.ExternalDependencies | app/dev_data.py:4054-4067 | the zone waits for exactly what the moved nodes waited for outside themselves |
| RepeatZone.BuildZone | app/dev_data.py:3725-3965 | the zone's body holds the moved nodes under fresh ids, in order, with references to one another made local and those outward made parent references; its state and outputs leave out the names the run keeps for itself |
| RepeatZone.ExportedExactly | app/dev_data.py:3948-3963 | the fields a zone exports are, in the order declared, those the end node declares that are none of history, iteration, iterations, next_iteration and reason |
| RepeatZone.FirstSelected | app/dev_data.py:3441-3445 | the zone's place is that of the first moved node |
| RepeatZone.Dag.ReplaceTopLevelNeeds | app/dev_data.py:3792-3812 | every top-level node's needs are rewritten, and nothing else of it |
| RepeatZone.Dag.RewriteTopLevelRefs | app/dev_data.py:3831-3863 | node references to moved nodes in dependency text, in other zones' outputs and in the workflow's outputs now read the zone; other zones' conditions, `max_iterations`, state updates and bodies, and the new zone, are left alone |
| RepeatZone.Dag.PlaceZone | app/dev_data.py:3441-3459 | the list is the outside nodes, re-pointed, with the zone where the first moved node stood |
| RepeatZone.Dag.CreateRepeatZoneFromPath | app/dev_data.py:3411-3459 | fails exactly when the request cannot be wrapped, and then changes nothing; otherwise the path set is moved into a fresh zone, which exports the fields `ExportedExactly` tells, and everything else is re-pointed |
| RepeatZoneProperties.WrapContracts | app/dev_data.py:3411-3459 | the new top-level graph is the old one with the path set contracted to the zone |
| RepeatZoneProperties.WrapKeepsAcyclic | app/dev_data.py:3411-3459 | an acyclic workflow stays acyclic exactly when no node that already named the zone's fresh id comes before the moved nodes |
| RepeatZoneProperties.WrapKeepsOrder | app/dev_data.py:3411-3459 | whenever the workflow stays acyclic, two outside nodes are ordered after the wrap exactly if they were before, or the first came before moved nodes and the second after them or after a node that already named the zone's id |
| RepeatZoneProperties.DanglingMentionMakesCycle | app/dev_data.py:3411-3459 | an acyclic two-node workflow whose wrap closes a cycle, because a node already names the id the zone receives |
| RepeatZoneProperties.BodyKeepsOrder | app/dev_data.py:3725-3789 | the order inside the body is the order the moved nodes had, except what only dropped best_tex text said |
| RepeatZoneProperties.BodyAcyclic | app/dev_data.py:3725-3789 | the body of a zone made from an acyclic workflow is acyclic |
| RepeatZoneProperties.NothingNamesMovedNodes | app/dev_data.py:3792-3894 | after a wrap nothing outside, evaluated where it stands, names a moved node exactly when no text the wrap leaves alone did: other zones' bodies, state updates and conditions, parent references in their best_tex and outputs, their max_iterations, and hidden references; needs and node references in re-pointed text never do |
| RepeatZoneProperties.BodyTextStillNamesMoved | app/dev_data.py:3850-3863 | a two-node workflow whose wrap succeeds while a step in another zone's body goes on naming the moved node |
| RepeatZoneProperties.BestTexStillNamesMoved | app/dev_data.py:3850-3863 | the same through a parent reference in another zone's best_tex |
| RepeatZoneProperties.ConditionStillNamesMoved | app/dev_data.py:3850-3863 | the same through another zone's condition |
| RepeatZoneProperties.RoundsStillNameMoved | app/dev_data.py:3850-3863 | the same through another zone's max_iterations, evaluated at the top level |
| RepeatZoneProperties.DeepTextStillNamesMoved | app/dev_data.py:3866-3894 | the same from two bodies deep, through two parents |
| RepeatZoneProperties.EndFieldStillRead | app/dev_data.py:3866-3965 | in text that a wrap re-points, evaluated through the zone's outputs and state, a top-level reference to a listed node reads the same field of the same node exactly when the node did not move, or it is the end node and declares the field and that is none of the five a run keeps for itself |
| RepeatZoneProperties.RepointedPath | app/dev_data.py:3866-3894 | a re-pointed reference to the end node keeps its path; one to another moved node names a state field after that node's new id and the field it read, and keeps what follows |
| RepeatZoneProperties.ZoneBeginsWith | app/dev_data.py:3917-3945 | a zone begins with exactly the state fields that the moved nodes' text reads, the same five excepted |
| RepeatZoneProperties.RoundsStillRead | app/dev_data.py:3850-3863 | in another zone's max_iterations, left as it is, it does exactly when the node did not move, whatever it declares |
| RepeatZoneProperties.IntermediateFieldLost | app/dev_data.py:3866-3894 | a wrappable three-node workflow in which a reference to a moved node other than the end node reads nothing after the wrap |
| RepeatZoneProperties.MovedTextStillReads | app/dev_data.py:3725-3829 | a reference in a moved node's text reads the same from inside the zone, whether the node it names moved too or stayed |
| RepeatZoneProperties.EndNodeInBody | app/dev_data.py:3725-3789 | the moved end node stands in the zone's body under the id from which its fields are read |
| RepeatZoneProperties.BodyStepIs | app/dev_data.py:3725-3829 | the k-th body step is the k-th moved node under its new id, its references to nodes that moved too made local and the others parent references, its best_tex gone and no need managed |
| RepeatZoneProperties.MovedNamed | app/dev_data.py:3634-3642 | a moved node has the first free one of its own id, cleaned, and that with `_2`, `_3` and so on, those of the nodes before it taken |
| RepeatZoneProperties.BodyTextStillReads | app/dev_data.py:3850-3863 | in other zones' body text, state updates, condition and best_tex a parent reference to a listed node is still read exactly when the node did not move |
| RepeatZoneProperties.ZoneOutputStillReads | app/dev_data.py:3850-3863 | a reference in another zone's outputs or best_tex to one of its body nodes keeps reading it exactly when no moved node has that id |
| CopyNodes.ChooseEntries | app/dev_data.py:3620-3633 | repeated requests are dropped, unknown nodes are refused, the first entry of each node is kept in order |
| CopyNodes.MakeCopies | app/dev_data.py:3644-3667 | each copy is the image of its original under the id map |
| CopyNodes.SyncNeedsFromRefs | app/dev_data.py:5559-5588 | managed needs no longer named are dropped once each, and named ones missing are added |
| CopyNodes.CopyNodes | app/dev_data.py:3614-3672 | fails exactly on an empty request or an unknown node, and otherwise appends the copies to the unchanged list |
| CopyNodesProperties.CopyDoubles | app/dev_data.py:3614-3672 | every copy has a fresh id, no two share one, the originals stand unchanged, and the copies are the images of what was asked for and nothing else |
| CopyNodesProperties.CopyNamed | app/dev_data.py:3634-3642 | each copy has the first free one of the requested id, or else the original's with `_copy`, cleaned, and that with `_2`, `_3` and so on, in the order of the requests |
| CopyNodesProperties.CopyDeps | app/dev_data.py:3675-3711 | a copy depends on exactly the images of what its original depended on |
| CopyNodesProperties.CopyNeeds | app/dev_data.py:5559-5588 | a copy needs exactly the images of what its original needed and every listed node its own text names, itself excepted; the latter, and no others, are managed |
| CopyNodesProperties.OriginalsKeepDeps | app/dev_data.py:3614-3672 | an original waits for a node after the copy exactly if it did before, or it already named the id that a copy received; never the latter in a closed workflow |
| CopyNodesProperties.CopiesDepend | app/dev_data.py:3644-3672 | a copy waits for exactly the images of what its original waited for or already named, itself excepted, outside nodes being shared |
| CopyNodesProperties.CopyAcyclicExactly | app/dev_data.py:3614-3672 | for distinct ids, the workflow after copying is acyclic exactly when the old graph is once each mention of an id that a copy receives counts as a mention of its original |
| CopyNodesProperties.CopyAcyclic | app/dev_data.py:3614-3672 | so copying keeps a closed acyclic workflow acyclic |
| CopyNodesProperties.DanglingMentionMakesCycle | app/dev_data.py:3614-3672 | an acyclic workflow that is not closed gains a cycle, because a node already names the id a copy receives |
| CopyNodesProperties.BodyUntouched | app/dev_data.py:3692-3711 | a body is copied word for word exactly when no parent reference in it, at any depth, names a copied id |
| CopyNodesProperties.CopiedStepMeant | app/dev_data.py:3675-3711 | in a copied zone each body step's own parent references name exactly the images of the top-level nodes they named, and the text inside a nested zone goes on meaning the same body steps exactly when none of its parent references, at any depth, names a copied id |
| CopyNodesProperties.ZoneOutputsMeant | app/dev_data.py:3675-3689 | a copied zone's outputs, and its best_tex, go on naming the same body steps exactly when they name no copied id |
| CopyNodesProperties.NestedParentCaptured | app/dev_data.py:3692-3711 | a zone whose nested step reads a body step that shares a copied node's id: the copied step reads an id that no step of the copied body has |
| CopyNodesProperties.CopyFollows | app/dev_data.py:3675-3711 | evaluated where it stands, a copy's text names exactly those copied originals that its original's own max_iterations and condition named, or hidden references anywhere in it |
| CopyNodesProperties.CopiedConditionReadsOriginal | app/dev_data.py:3675-3689 | a zone copied together with a node its condition reads: the copy goes on reading the original |
| RenameRefs.RenameOutputRefs | app/dev_data.py:6697-6756 | the loops over renames, local nodes, steps and bodies rename one scope and all scopes inside it as the recursive specification says |
| RenameRefs.CleanedExactly | app/dev_data.py:6680-6694 | the renames applied are, in order, exactly the requested pairs of two non-empty, different names |
| RenameRefs.RenameComponentOutputRefs | app/dev_data.py:6680-6694 | renames are cleaned of empty and identical names and applied to the whole workflow |
| RenameRefsProperties.RenameMeant | app/dev_data.py:6680-6780 | with distinct node ids in each scope and step ids in each chain, every reference at every depth resolves to its producer with the field renamed exactly if that producer uses the component, exactly when no step id clashes with that of another chain and no id in a zone's outputs stands for different users inside and outside the zone |
| RenameRefsProperties.SequentialIsSimultaneous | app/dev_data.py:6697-6756 | applying the renames one after another does what they say all at once, for every field, exactly when no new name is a later old name |
| RenameRefsProperties.SharedStepIdRenamed | app/dev_data.py:6697-6756 | two chains of one scope that share a step id: a reference to the other component's step is renamed too |
| RenameRefsProperties.ZoneOutputMissed | app/dev_data.py:6697-6756 | a zone output that reads a body node of the component keeps the old field name |
| StageMachine.ScheduleShape | scripts/firstproof_entrypoint.py:927-937 | there is always a stage; the last has the round limit, raised for an adaptive run, and those before it all the whole batches below it, in order; the batch-of-three mode has one stage |
| StageMachine.ProblemRun.RunStages | scripts/firstproof_entrypoint.py:1671-2027 | the loop over stages, with an interruption possible at every await, writes, records and returns what the run specification says; `StageMachineTexts` tells what that is from the inputs |
| StageMachineTexts.StagesWriteExactly | scripts/firstproof_entrypoint.py:1671-1942 | over every run each stage reached writes and records exactly its own text if it counts as verified, else the text of the last stage that does, else a text verified under an exhausted budget, or the fallback, with the status its inputs call for; nothing but stages records |
| StageMachineTexts.BestReturned | scripts/firstproof_entrypoint.py:1545-2010 | a result that says it is the best stage solution carries the text of the last verified stage the run reached |
| StageMachineTexts.FinalReturned | scripts/firstproof_entrypoint.py:1943-2027 | a final text that the check accepts is returned as it is; after any other end of a well-run workflow the text of the last verified stage is, or the fallback with the status of what went wrong |
| StageMachineTexts.HurriedReturned | scripts/firstproof_entrypoint.py:1447-2010 | a run that ends on a cancelled or failed stage, a failing exit code or an exhausted budget returns, on an operator's stop, the published text or what the file holds; else the text of the last verified stage; else at the deadline the published text or the file, and otherwise its solution if the check accepts it; each with its status |
| StageMachineTexts.MadeUpReturned | scripts/firstproof_entrypoint.py:2030-2071 | a pass that makes up a result does the same, preferring no stage's text; a failing write leaves the file alone |
| StageMachineProperties.EveryDocumentKnown | scripts/firstproof_entrypoint.py:1411-1601 | over every run, each document written, recorded or returned is a fallback, a text the exact-compile check had accepted, or hash-checked published bytes |
| StageMachineSafety.LostExactly | scripts/firstproof_entrypoint.py:1671-2071 | a verified document is overwritten by a fallback in exactly two situations, both told from the run's inputs alone: a budget stop whose solution no longer verifies, and a first stage that ends unrecorded before a pass that cannot verify it |
| StageMachineSafety.CleanStageNeverLost | scripts/firstproof_entrypoint.py:1671-2071 | once a stage recorded a verified document, no later write is a fallback and neither is the result |
| StageMachineSafety.BudgetSolutionLost | scripts/firstproof_entrypoint.py:1671-2027 | a concrete run in which the solution of a budget-exhausted first stage is replaced by the fallback |
| StageMachineSafety.UnrecordedSolutionLost | scripts/firstproof_entrypoint.py:2852-2899 | a concrete run in which a cancellation between write and record loses the first stage's document |
| StageMachineSafety.ResultOnDiskExactly | scripts/firstproof_entrypoint.py:1671-2071 | when the result reaches the list and no recovery write fails, the file holds the returned result's document except exactly when a later stage was cut between its write and its record with another document and no recovery or final pass wrote one |
| StageMachineTexts.StageDocTold | scripts/firstproof_entrypoint.py:1574-1602 | the document it speaks of is the stage's own verified text, else the last one verified, and so on, told from the inputs |
| StageMachineSafety.FallbackReturnedExactly | scripts/firstproof_entrypoint.py:1671-2071 | when the result reaches the list, it is a fallback although a verified text was written in exactly three situations, told from the run's inputs alone: a budget text that no longer verifies, a first stage cut on its text before a pass that verifies nothing, and a later stage cut on its text while the result before it is returned |
| EventSnapshot.Snapshot.Consume | scripts/firstproof_entrypoint.py:2216-2242 | one line changes the snapshot as the line's event says; an undecodable provisional line leaves no warning |
| EventSnapshot.Snapshot.ReadOn | scripts/firstproof_entrypoint.py:2260-2273 | reading on consumes the complete lines there are and hands back the unterminated tail |
| EventSnapshot.Store.PollLog | scripts/firstproof_entrypoint.py:2245-2289 | a poll shows the cached lines with the tail consumed by a copy; the cache never sees the tail |
| EventSnapshotProperties.PollExact | scripts/firstproof_entrypoint.py:2245-2289 | one poll shows the parse of the whole file, and the cache then covers exactly the complete lines before its offset; after a read error it covers fewer complete lines |
| EventSnapshotProperties.FailedPollTells | scripts/firstproof_entrypoint.py:2275-2289 | polls that fail: without a file nothing is shown and the cache is forgotten; when it does not open, what the cache holds; when reading fails, what the complete lines read by then hold; each with a warning |
| EventSnapshotProperties.InterleavingsExact | scripts/firstproof_entrypoint.py:2245-2289 | for any interleaving of appends, replacements of the file, polls, failing polls and polls that find no file, every poll that does not fail equals parsing the whole file from scratch, as long as each poll either finds what it had read or recognizes another file |
| EventSnapshotProperties.RunsExact | scripts/firstproof_entrypoint.py:2245-2289 | the same from a new cache, for every run in which a file that replaces the log has an identity none before it had |
| EventSnapshotProperties.GrowthRecognized | scripts/firstproof_entrypoint.py:2245-2265 | appending alone never makes a poll start the file over |
| EventSnapshotProperties.ViewTells | scripts/firstproof_entrypoint.py:2205-2242 | a view holds the records, billed calls and helper counts of exactly the decodable lines, in order, and warns of each bad complete line |
| EventLog.Log.Append | src/proofstack/events.py:88-96 | the newline repair and the data are written after what is there, cut off wherever the crash falls |
| EventLogProperties.LinesReadBack | src/proofstack/events.py:88-96 | after any history of complete and torn appends, reading line by line gives what was readable at the start and then exactly the records whose bytes all reached the disk, in order |
| EventLogProperties.TextReadBack | app/dev_data.py:2130-2145 | reading the file as one UTF-8 text gives the same, exactly when no tear cut a character in two; one such tear makes the whole read fail |
| EventLogProperties.WholeAppendsSurvive | src/proofstack/events.py:88-96 | appends that were not torn are all read back, in order |
| ResumeCache.Cache.Get | src/proofstack/context.py:56-64 | the first directory that has the key decides, even when its file is unusable |
| ResumeCache.Cache.Put | src/proofstack/context.py:66-68 | the value is stored under the key in the run's own directory |
| ResumeCache.Cache.TryReplay | src/proofstack/agent.py:129-144 | a reusable hit is returned and stored again in the run's own directory; a miss changes nothing |
| ResumeCache.Cache.Keep | src/proofstack/agent.py:231-233 | the output is kept exactly if the agent uses the cache and may reuse it |
| ResumeCacheRuns.RunTold | src/proofstack/agent.py:116-233 | a run returns and stores exactly what its steps say, in their order: hits at a start, values at an end and at a return; its directory holds the values put last; the calls in flight are those not yet answered, returned or failed |
| ResumeCacheRuns.MayCome | src/proofstack/agent.py:116-233 | a call starts that is not in flight, its run ends or fails while it runs, and it returns once its run has ended |
| ResumeCacheProperties.CrashReplaysExactly | src/proofstack/context.py:147-155 | an answer a run returned before it crashed, at any point, is replayed by every resumed run with its value and without running it exactly when the last put of its key stored that value |
| ResumeCacheProperties.CrashReplays | src/proofstack/context.py:147-155 | so it is for every kept answer whose key's calls had run one at a time |
| ResumeCacheProperties.ChainExactly | src/proofstack/context.py:39-68 | over a chain of in-place resumes, crashed anywhere, the puts of a key agree exactly when they do in the first run that puts it |
| ResumeCacheProperties.ChainConsistent | src/proofstack/context.py:39-68 | so all puts of a key store one value when its calls run one at a time |
| ResumeCacheProperties.RacingCallsOverwrite | src/proofstack/agent.py:116-144 | two calls of one key that run at the same time persist two values; both are returned, and a resumed run replays only the later |
| ResumeCacheProperties.FinishedFromOwnCache | src/proofstack/context.py:39-68 | the answers a workflow used, asked in any order and returned in any other, are those of an uninterrupted run answered from the run's own cache directory, where agents whose outputs were not kept answer as before, exactly when no later put replaced one |
| Budget.Tracker.AddUsd | src/proofstack/budget.py:166-171 | real money is refused, changing no scope, exactly when it is not zero and some scope of the chain is in subscription mode; otherwise every scope of the chain and no other grows by it |
| Budget.Tracker.AddApiEquivalentUsd | src/proofstack/budget.py:153-158 | a negative amount is refused without a change, any other is charged to the whole chain |
| Budget.Tracker.AddPlanningUsd | src/proofstack/budget.py:160-164 | money is charged in the accounting mode the chain is in |
| Budget.Tracker.AddTokens | src/proofstack/budget.py:173-176 | the whole chain and nothing else is charged |
| Budget.Tracker.AddToolCall | src/proofstack/budget.py:178-181 | the whole chain and nothing else is charged |
| Budget.Tracker.AddPaused | src/proofstack/budget.py:183-191 | the pause is taken off the wallclock of the whole chain |
| Budget.Tracker.Check | src/proofstack/budget.py:199-225 | the outcome is that of scanning the chain's readings in order, with the clock read anew at each scope, which `CheckRaises`, `CheckNames` and `CheckWarns` tell; counters do not change and flags once set stay set, also when it raises |
| BudgetChecks.CheckRaises | src/proofstack/budget.py:199-225 | a check raises exactly when overruns are not allowed and some scope of the chain has spent a limit: used up one above nothing, or used anything of one of nothing |
| BudgetChecks.CheckNames | src/proofstack/budget.py:199-225 | it names a spent limit with its use, the first from the scope upwards: money in the accounting mode of the scope, tokens, wallclock without pauses, tool calls |
| BudgetChecks.CheckWarns | src/proofstack/budget.py:199-225 | one that does not raise reports exactly the limits newly found at nine tenths or more, each once |
| Budget.Tracker.RemainingWallclockS | src/proofstack/budget.py:227-237 | the result is the least allowance left on the chain, clamped at zero, and missing exactly when no scope limits the wallclock |
| BudgetChecks.RemainingExactly | src/proofstack/budget.py:227-237 | the time left is the least that a scope of the chain with a time limit has left, pauses not counted, and no figure exactly when none has one |
| BudgetChecks.SubscriptionIs | src/proofstack/budget.py:144-146 | a scope is in subscription mode exactly when it or some scope above it is |
| Budget.Registry.RegisterRoot | src/proofstack/budget.py:249-253 | a new root with nothing spent joins the forest |
| Budget.Registry.Child | src/proofstack/budget.py:255-264 | a new scope with nothing spent joins the forest below its parent |
| Budget.BubbledIsSpent | src/proofstack/budget.py:153-191 | what the charging methods promise is one step of the run model |
| BudgetTree.Conservation | src/proofstack/budget.py:134-191 | in every run, however the forest grew, a scope's counter is what was charged to it directly plus its children's counters |
| BudgetTree.RunShape | src/proofstack/budget.py:239-264 | a run makes the scopes its events name below the parents they name, and puts those into subscription mode that it names for it; it takes none away, moves none and ends no mode |
| BudgetWarnings.RaisesFirst | src/proofstack/budget.py:206-225 | a check raises exactly when overruns are not allowed and some reading is exhausted, and it names the first |
| BudgetWarnings.ScanReports | src/proofstack/budget.py:206-225 | a check reports exactly the crossed thresholds not flagged before, each once; one that does not raise leaves none unflagged |
| BudgetWarnings.WarnedAtMostOnce | src/proofstack/budget.py:206-225 | over any series of checks from any trackers, each scope and kind is reported at most once |
| BudgetWarnings.ReportedExactly | src/proofstack/budget.py:199-225 | over any series of checks, a threshold not flagged before is reported exactly when the first check that comes to it crossed does not raise |
| BudgetWarnings.RaiseLosesWarning | src/proofstack/budget.py:218-224 | a concrete check whose warning, flagged before it raises, is never reported |
| BudgetOvershoot.OvershootBounded | src/proofstack/budget.py:199-225 | with k workers ever joined below a scope, each spending at most c after a passed check, in any interleaving and while scopes and workers join, what was not spent under an allowed overrun stays below limit + k·c, and within k·c for a zero limit |
| BudgetWorkers.SpendersTold | src/proofstack/budget.py:199-225 | a worker may spend exactly when its last event was a check that allowed overruns or found no limit of its scopes spent |
| BudgetWorkers.WorkersTold | src/proofstack/budget.py:199-225 | the workers of a run are those there at the start and those hired, each where it was hired |
| ProviderLedger.Trace.Update | src/mathagents/provider_trace.py:129-150 | the attempt of the key is changed or made, and its new revision is appended to the log |
| ProviderLedgerProperties.RevisionTold | src/mathagents/provider_trace.py:129-133 | a field of the row an update appends is the time, else what the update changes, else what the attempt had or, for a new one, its id and that usage is unavailable, else the metadata, else the invocation's id |
| ProviderLedger.ReadLatest | src/mathagents/provider_trace.py:339-351 | the last revision of each attempt in the order first seen; only an undecodable last line is passed over |
| ProviderLedger.Restore | src/mathagents/provider_trace.py:93-102 | an invocation is restored with one attempt for each of its rows, or not at all when it has none |
| ProviderLedgerProperties.AttemptIdInjective | src/mathagents/provider_trace.py:131 | different keys of an invocation have different attempt ids |
| ProviderLedgerProperties.UpdateMirrors | src/mathagents/provider_trace.py:129-150 | one update keeps the log's replay equal to the memory exactly when its key is known or its id is not another attempt's |
| ProviderLedgerProperties.LogMirrorsMemory | src/mathagents/provider_trace.py:129-150 | through any updates of this and other invocations sharing the log, its replay is the attempts in memory, in the order first seen |
| ProviderLedgerProperties.NewTraceReady | src/mathagents/provider_trace.py:82-91 | the replay theorem applies to every new invocation, with no condition on its keys |
| ProviderLedgerProperties.RestoredReady | src/mathagents/provider_trace.py:93-102 | it applies to a restored invocation, whose further updates then leave one row per attempt id |
| ProviderLedgerProperties.CutAnywhere | src/mathagents/provider_trace.py:339-351 | cutting the log anywhere in its last line gives the state before that update until the whole of its JSON is there |
| ProviderLedgerProperties.BytesMirrorMemory | src/mathagents/provider_trace.py:129-150 | through any updates by this and other invocations, and whatever byte the last update is cut at, the bytes of the log read back as the attempts in memory, after that update if the whole of its JSON landed and before it otherwise |
| ProviderLedgerProperties.TearMustBeLast | src/mathagents/provider_trace.py:129-150 | after a torn line the next update is lost with it, and one more makes the log unreadable, even if only the newline was missing |
| ProviderUsage.Trace.BeginRequest | src/mathagents/provider_trace.py:167-190 | the attempt is recorded as started, with its price only if that is finite and not negative |
| ProviderUsage.Trace.RecordUsage | src/mathagents/provider_trace.py:267-336 | one response changes the attempt as the step specification says, which `CountsAreMaxima`, `CostIsMaximum`, `UnavailableIs` and `EndingIs` tell over whole runs |
| ProviderUsage.Trace.EstimateTerminalUsage | src/mathagents/provider_trace.py:192-204 | exactly the terminal responses without usage are estimated |
| ProviderUsage.Trace.Totals | src/mathagents/provider_trace.py:152-165 | totals are the sums over all attempts, unavailable if any is |
| ProviderUsageProperties.TotalsAreSums | src/mathagents/provider_trace.py:152-165 | each total is the sum over the attempts of that count, or of the cost |
| ProviderUsageProperties.UnseenIs | src/mathagents/provider_trace.py:35-37 | the estimated unseen output is the elapsed time at fifty tokens a second, rounded up, within the allowance |
| ProviderUsageProperties.EstimateExactly | src/mathagents/provider_trace.py:24-46 | the terminal estimate prices, at the output rate, the larger of the output seen and of what fifty tokens a second, rounded up, and the allowance permit, with the input price; just the output seen for a rejected attempt; there is none when a figure is missing or negative |
| ProviderUsageProperties.EstimateBounds | src/mathagents/provider_trace.py:24-46 | the terminal estimate lies between zero and the input cost with the larger of visible output and allowance |
| ProviderUsageProperties.EstimateMonotone | src/mathagents/provider_trace.py:24-46 | a later or longer terminal response is never estimated cheaper |
| ProviderUsageProperties.NeverDecreases | src/mathagents/provider_trace.py:167-336 | over any run of requests, responses and estimates no attempt's counts or cost shrink and no attempt goes |
| ProviderUsageProperties.TotalsNeverDecrease | src/mathagents/provider_trace.py:152-165 | nor do the invocation's totals |
| ProviderUsageProperties.CountsAreMaxima | src/mathagents/provider_trace.py:320-323 | each count of an attempt is the largest any of its responses reported, whatever their order |
| ProviderUsageProperties.CostIsMaximum | src/mathagents/provider_trace.py:267-336 | an attempt's cost is the largest of the one it began with, what each of its responses cost, with the terminal estimate as the least for an estimated one, and the estimates of the passes that priced it |
| ProviderUsageProperties.UnavailableIs | src/mathagents/provider_trace.py:306-318 | an attempt's usage is unavailable exactly if its last response with usage was partial or estimated, or, when none gave any, if it was at the start |
| ProviderUsageProperties.EndingIs | src/mathagents/provider_trace.py:279-336 | an attempt ended at the first response that closed it, with the most text any such response had; the last one says whether it was rejected; the estimate is the last that could be made; its cost counts as estimated once an estimated response gave usage or a pass priced it |
| ProviderUsageProperties.EstimatesOnce | src/mathagents/provider_trace.py:192-204 | a second pass of estimates changes nothing |
| Reconciliation.BilledByCall | src/mathagents/provider_trace.py:356-365 | what was billed to each call is the sum of its model calls |
| ReconciliationSums.BilledIsSum | src/mathagents/provider_trace.py:356-365 | what was billed to a call is, field by field, the sum of its model calls |
| Reconciliation.ReceiptsByCall | src/mathagents/provider_trace.py:366-376 | the receipts of each call, in the order first seen, are those `ReceiptsAreSums` tells |
| ReconciliationSums.ReceiptsAreSums | src/mathagents/provider_trace.py:366-376 | a call's receipts are, field by field, the sum of the rows that belong to it; unavailable, or estimated, if one of them is; the model is that of the last |
| Reconciliation.UsageAdjustments | src/mathagents/provider_trace.py:354-401 | the adjustments of the calls in the order first seen, then the ledger's debits; an invalid debit refuses the pass |
| ReconciliationProperties.BilledTheLarger | src/mathagents/provider_trace.py:377-388 | for every call, the sum of its model calls with what the pass adds is, field by field, the larger of that sum and the sum of its receipts, or that sum when it has none |
| ReconciliationProperties.AdjustedExactly | src/mathagents/provider_trace.py:377-388 | an adjustment is made for exactly the calls whose receipts exceed what was billed in some field or are unavailable, and says by how much, and what the receipts say |
| ReconciliationProperties.ChargedPassIsSettled | src/mathagents/provider_trace.py:377-388 | once the adjustments are charged as model calls the next pass owes nothing |
| ReconciliationProperties.RunTotal | src/mathagents/provider_trace.py:354-388 | a run's bill with the adjustments is the sum over all calls of what each is due by the sums of its model calls and its receipts: nothing twice, nothing left out |
| ReconciliationProperties.RoundsSettleExactly | src/mathagents/provider_trace.py:354-401 | however many rounds of adjustments were charged back before, and whatever was billed meanwhile, the bill with the next pass is the sum over calls of the larger of billed and receipts, and each recovery debit once, exactly when for no call a round's receipts with what was billed to it after that round exceed what it is due |
| ReconciliationProperties.LateExactly | src/mathagents/provider_trace.py:354-388 | the same for each call by itself; otherwise it is billed more than it is due |
| ReconciliationProperties.LateCallBilledTwice | src/mathagents/provider_trace.py:354-388 | a call settled up to its receipts and then billed part of what these counted is billed that part twice |
| ReconciliationProperties.RoundsSettle | src/mathagents/provider_trace.py:354-401 | so the bill is settled when nothing was billed between rounds, on receipts that only grew |
| ReconciliationProperties.DebitsOncePerPass | src/mathagents/provider_trace.py:389-401 | repeating the pass on the same receipts any number of times leaves the whole bill, debits included, as it is |
| CallTree.Tree.ReadEvents | app/dev_data.py:1394-1487 | the calls, their parents and start times and their own usage are those the log gives them, as `CallsSeen`, `ParentAndStart` and `OwnIsTargeted` tell by positions in it |
| CallTree.Tree.Link | app/dev_data.py:1503-1516 | each call goes to its parent's children or the roots, and both are sorted by start |
| CallTree.Tree.RollupCost | app/dev_data.py:2562-2577 | the recursion ends, and stashes for each call below its subtree total |
| CallTree.Tree.AssignCallRefs | app/dev_data.py:1682-1697 | references are assigned in preorder |
| CallTree.Tree.Load | app/dev_data.py:1379-1523 | totals are stashed for exactly the calls whose parents lead to a root |
| CallTreeProperties.RolledIs | app/dev_data.py:2562-2577 | a subtree total is what the call and all below it used of their own |
| CallTreeProperties.OwnIsTargeted | app/dev_data.py:1466-1475 | a call's own usage is that of the model calls that name it as their parent, and of those without a parent that have its id |
| CallTreeProperties.CallsSeen | app/dev_data.py:1394-1487 | the tree holds the calls that some event is about, in the order of the first such events |
| CallTreeProperties.ParentAndStart | app/dev_data.py:1414-1465 | a call's parent and start time are those its last start gives, or else the first that a cache hit after it gives, or, when it never started, the first that any cache hit gives |
| CallTreeProperties.CostConserved | app/dev_data.py:1379-1523 | the roots' subtree totals, with what calls on or below a cycle of parents used, are all that the log's targeted model calls used |
| CallTreeProperties.AcyclicConserved | app/dev_data.py:1379-1523 | without a cycle the roots account for everything |
| CallTreeProperties.ReferencesAreOneToOne | app/dev_data.py:1682-1697 | the references 1, 2, ... name every call that leads to a root exactly once, parents before children |
| CallTreeProperties.SiblingsInOrder | app/dev_data.py:1503-1516 | children and roots stand in order of start, those without one first, and those of one start in the order the log showed them |
| PayloadSpill.Sink.SpillPayload | src/proofstack/events.py:98-123 | an object payload is spilled and its long strings written; any other payload is left as it is |
| PayloadText.SpillsExactly | src/proofstack/events.py:105-123 | exactly the strings of more than 2048 bytes in UTF-8 are replaced, by a reference named after their event and contents |
| PayloadText.Utf8Reads | src/proofstack/events.py:110 | the bytes counted are those of UTF-8: they read back as the character |
| PayloadText.SafeFilenameIs | src/proofstack/events.py:48-49 | a part of a file name keeps letters, digits and `-`, `_`, `.` of its first 120 characters, and has `_` for others |
| PayloadSpillProperties.SpilledIsShort | src/proofstack/events.py:105-123 | every string value left in a spilled payload is at most MAX_INLINE_BYTES in UTF-8, whatever the names in its event |
| PayloadSpillProperties.ResolvedIs | app/dev_data.py:1608-1626 | reading back gives the payload exactly when its long strings read back from their files and no short `$ref` object in it leads to a file |
| PayloadText.NormalAtReturn | app/dev_data.py:1617-1619 | a blob reads with each carriage return, and a newline right after it, turned into one newline, and else as it is |
| PayloadSpillProperties.SpillRoundTrip | src/proofstack/events.py:98-123 | a spilled payload reads back as it was exactly when no long string has a carriage return, no two share a file name, and no short `$ref` object of its own leads to a file |
| PayloadSpillProperties.SeriesRoundTrip | src/proofstack/events.py:98-123 | payloads spilled one after another into one directory all read back as they were exactly when no long string has a carriage return, no two different ones share a file name, across all of them, and no short `$ref` object leads to a file |
| ProblemSlots.ProblemSlot.Release | scripts/firstproof_entrypoint.py:951-955 | a permit is given back only if held, so only the first of timer and exit gives one back |
| ProblemSlots.ProblemSlot.Acquired | scripts/firstproof_entrypoint.py:957-969 | a granted wait takes a permit and, with a deadline, sets the timer; a timed-out one takes none |
| ProblemSlots.ProblemSlot.Exit | scripts/firstproof_entrypoint.py:971-978 | leaving gives back the permit unless the timer already did |
| ProblemSlotsProperties.PermitsConserved | scripts/firstproof_entrypoint.py:940-978 | in every reachable state free permits and held slots add up to the limit, and each slot has released at most once |
| ProblemSlotsProperties.BodiesWithinLimit | scripts/firstproof_entrypoint.py:940-978 | until the cutoff at most the limit's number of bodies run |
| ProblemSlotsProperties.DeadlineFreesAll | scripts/firstproof_entrypoint.py:957-978 | after the cutoff no slot starts to wait, a waiting one can go on without a permit, and once the timers have gone off all permits are free |
| ProblemSlotsProperties.RunTells | scripts/firstproof_entrypoint.py:940-978 | in every run a slot's phase, permit and timer are told by which of its events happened: it waits until granted, timed out or entered late, holds its permit from the grant to the timer or the leaving, and its timer runs under a deadline until it goes off or the body ends |
| ProblemSlotsProperties.MayHappen | scripts/firstproof_entrypoint.py:940-978 | which events can happen next is told the same way |
| ProblemSlotsProperties.AcquiredIsStep | scripts/firstproof_entrypoint.py:957-969 | on slot objects that mirror the world, the end of the wait is the model's grant or time-out |
| ProblemSlotsProperties.TimerIsStep | scripts/firstproof_entrypoint.py:951-969 | the timer's release is the model's |
| ProblemSlotsProperties.ExitIsSteps | scripts/firstproof_entrypoint.py:971-978 | leaving is the model's end of the body followed by its leaving |
| CliUsage.ParseCodexJsonl | src/proofstack/cli_usage.py:40-79 | the parsed usage is the totals of the completed turns, with the turns |
| CliUsage.ParseClaudeJson | src/proofstack/cli_usage.py:155-240 | the last result decides, by its models' counters if they are complete and by its own usage otherwise; without one, the last snapshots of the messages are added; an invalid count refuses the log |
| CliUsageProperties.TotalsAreSums | src/proofstack/cli_usage.py:23-37 | every total is the sum over the turns; cache writes are missing only if every turn left them out |
| CliUsageProperties.TurnsRead | src/proofstack/cli_usage.py:40-79 | the turns kept are those of the log's completed turns, in order, count by count; cache writes under the first of their three names that is there |
| CliUsageProperties.OnePerTurn | src/proofstack/cli_usage.py:40-79 | the number of turns is that of the turns kept, and turns have no turns of their own |
| CliUsageProperties.PriceExactly | src/proofstack/cli_usage.py:389-432 | fresh, cached, written and output tokens are each priced at their own rate per million, and past the threshold the input and the output each times its multiplier |
| CliUsageProperties.MergedCost | src/proofstack/cli_usage.py:23-37 | merging adds the costs of logs that carry turns; a log without turns loses its cost beside one with them |
| CliUsageProperties.UntieredDifference | src/proofstack/cli_usage.py:360-432 | without tiers, one request for all costs more than the turns by exactly its additional writes at the difference of the rates |
| CliUsageProperties.TurnsCostAtMostOneRequest | src/proofstack/cli_usage.py:360-432 | turn by turn costs at most what one request would, under every threshold and all multipliers of at least one, exactly when the additional writes the one request is charged for cost nothing negative |
| CliUsageProperties.UniformTurnsCostAtMost | src/proofstack/cli_usage.py:360-432 | so it is when the turns agree on reporting writes, and writes come besides the input, have no price of their own, cost at least as much as reads or fit in the uncached input |
| CliUsageProperties.MixedReportsCostLess | src/proofstack/cli_usage.py:401-416 | turns that differ in reporting cache writes for which one request would cost less |
| CliUsageProperties.MissingCountExactly | src/proofstack/cli_usage.py:401-416 | a missing count of cache writes is never priced below a reported one exactly when writes have no price of their own, are part of the input and cost at least as much as reads or have no uncached input to come from, or come besides it for nothing |
| CliUsageProperties.MissingCountIsSafe | src/proofstack/cli_usage.py:401-416 | where writes are part of the input and cost at least as much as reads, a missing count is never priced below a reported one |
| CliUsageProperties.MissingCountBesidesInput | src/proofstack/cli_usage.py:401-416 | where writes come besides the input, it is priced below every reported one |
| CliUsageProperties.LastSnapshotsCounted | src/proofstack/cli_usage.py:186-237 | each streamed message is counted once, with its last snapshot |
| CliUsageProperties.StreamExactly | src/proofstack/cli_usage.py:223-246 | without a result the usage is, count by count, the sum of the messages' last snapshots, refused exactly when one counts something negative; it is identified when every message had an id |
| CliUsageProperties.AnonymousApart | src/proofstack/cli_usage.py:227-232 | messages without ids never go by one name |
| CliUsageProperties.LastResultDecides | src/proofstack/cli_usage.py:186-237 | whatever else was streamed, the last typed result decides, and without one the first bare one |
| CliUsageProperties.ReportExactly | src/proofstack/cli_usage.py:159-183 | a result's usage is, count by count, the sum of its models' counters when there are any and all are complete, and its own otherwise; it is refused exactly when the models are no mapping of records, or its turns or a count that is used are negative |
| CliUsageProperties.ReportNonnegative | src/proofstack/cli_usage.py:155-183 | usage taken from a result counts nothing negative, whether its own or its models' counters were used |

## Left out

- References in text are structured values: finding them with regular expressions, and LaTeX cleaning, are not modelled. Names in Python code are hidden references; Python code that computes an id is not modelled.
- RepeatZone.BuildZone: the default inputs a prompt step receives when it enters a zone are not modelled, nor fields that name prompts or files, nor that `run_on` and `retries` are dropped, a tag and a number that hold no references.
- RepeatZoneProperties.EndFieldStillRead: readings are of a zone's last round; a zone that runs no round, and a declared field that the end node then leaves out, are not told apart from it.
- Moving a path into a zone that already exists: the path set need not be convex there, and the editor relies on validation afterwards.
- RenameRefs.RenameOutputRefs: scopes are values that each pass returns, so writing into nested dicts in place, and two scopes sharing one dict, are not captured.
- RenameRefsProperties.RenameMeant: fields read in Python code, or under two or more parents, are found by no rename and are not modelled there.
- Subprocesses, the exact-compile check, file publishing and signals of the stage machine are inputs; that the compile check itself is right is not claimed.
- EventSnapshotProperties.InterleavingsExact: nothing is claimed of polls after the log was rewritten in place so that identity, size, time stamp and the 256-byte anchor let it pass for the file read before.
- Carriage returns in log files: lines end at newlines only, as in every log the repository writes.
- A change of subscription mode in the middle of a run of checks and spends is not modelled beside scopes and workers that join.
- Computing cache keys, and validating a cached output against the agent's output schema, are left out: a key is a value, and an output that does not validate counts as not reusable.
- StageMachineSafety.ResultOnDiskExactly: does not say what the file holds when a recovery write fails or a cancellation keeps the result from the shared list.
- StageMachineSafety.FallbackReturnedExactly: does not say which result stands in the list when a cancellation keeps the final one from it.
- BudgetOvershoot.OvershootBounded: does not bound wallclock use, because time passes without spending.
- Sums of money are exact: rounding of floats, infinities and values that are no numbers are not modelled.
- A failed write of the provider log leaves the attempt changed in memory; only writes that complete and crashes are modelled.
- Tool evidence, completed reports and failure callbacks of provider traces are supplementary and left out.
- Events that only set a call's status, output or error are reduced to the call they touch; timestamps are ordered values.
- Spilling models only string values: keys of objects are never spilled by the source either, however long.
- A Claude result's own cost and the token counts of single models are not modelled, only their sum.
- Which waiting slot a permit goes to is left open; semaphore fairness is not claimed.
- The price of a Claude run with unknown per-model costs, and loading of rates from configuration, are left out: they are single formulas and checks of values.
- Flask routes, templates, presets, argument parsing and dashboards are left out: interface and I/O plumbing.
