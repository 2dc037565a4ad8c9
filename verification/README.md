# Verification model of the traffic collector

The collector tags containers and processes with network class ids, keeps packet-filter rules that count the
traffic of each id, samples counters into a time-series store, derives rates from them, reports the results, and
replaces its own Lua plugins while it runs. This project models the parts of it whose correctness depends on whole
runs, on the order of concurrent steps or on text that one component prints and another parses, and proves what
those parts keep. `dafny verify dfyconfig.toml` checks all of it.

| file | models |
|---|---|
| `Text.dfy` | splitting and joining words, literal search, decimal numbers |
| `FilterTable.dfy` | a packet-filter table and all-or-nothing, no-flush restore scripts |
| `IptablesLoader.dfy`, `IptablesPlan.dfy` | the reconciler: loading a saved table, printing scripts |
| `IptablesReconcile.dfy`, `IptablesConvergence.dfy`, `IptablesRounds.dfy`, `IptablesStale.dfy` | what the scripts do to the table; any number of rounds, readable or not; a table changed between saving and restoring |
| `ClassId.dfy`, `Attribution.dfy` | packing class ids; attributing counters by id |
| `PluginSwap.dfy`, `PluginManager.dfy` | hot plugin replacement: the list surgery, the two classes |
| `PluginRuns.dfy`, `PluginPending.dfy` | runs of updates and deletions; the start of the program and updates that do not load |
| `PluginEffects.dfy` | what one update, one deletion and the start do to names, hashes and order |
| `Handshake.dfy`, `HandshakeRuns.dfy`, `HandshakeProgress.dfy` | the interleaving of the goroutines, that it refines those runs, and that it never gets stuck |
| `Database.dfy`, `Storage.dfy`, `StorageRuns.dfy` | the bucket store, the write-once cache with its two sweeps, and runs of both |
| `Report.dfy`, `ReportRuns.dfy` | store-and-forward reporting as an interleaving of sender, retrier and expiry; what whole runs do to each report |
| `DockerEvents.dfy` | the container tracker that applies only the newest event of a period |
| `Traffic.dfy` | rates, windows, and the program-bandwidth estimate |
| `Converter.dfy`, `Framing.dfy` | Lua/JSON trees; length-prefixed frames |

Rules and scripts are modelled as the text that is printed and parsed, character by character. Where the source
walks a map, the order is arbitrary: a method picks any element, and its contract and the lemmas hold for every
order. A goroutine protocol is a state machine over the atomic actions of its goroutines, and a run is any sequence
of enabled actions. An object whose methods update its fields is a class, proved against functions of its state.

## Assumptions

- A table is well-formed when class-id rules stand only in the custom chain and in the printed form, and no other
  line carries one of the three marks the loader searches for. A saved table may list its chains in any order.
- `Restore` follows iptables-restore without flushing: one refused line aborts the script, declaring an existing
  user chain empties it, `-D` removes the first match, `-X` needs an empty chain that nothing jumps to.
- `storer.go:294` sweeps the bucket named `report_save` whatever the configuration says; reports are assumed to go to
  a bucket of that name.
- Shell commands, hashes, `generate_offset.py`, inspection results, HTTP answers and clocks are parameters.

## What the model shows about the code

- `iptables_rules_v1.lua:209` hands the text `EXCEPTION` to the loader when the table cannot be read. The update then
  recreates the chain and appends a reference, so an existing reference is doubled and foreign rules in the custom
  chain are lost (`UnreadableUpdate` gives the exact conditions, `SharedUnreadableFails` a table). The next update
  that can read the table repairs all but the lost rules (`RunsConverge`).
- A clearing script ends with `-X`. One foreign rule in the custom chain, or one foreign jump to it, makes the
  restore refuse the whole script, so none of the collector's rules go (`ClearingIsExact`, `SharedClearingFails`).
- The table is saved by one command and the script restored by another. If something else changed the collector's own
  rules or references in between, the target is missed, and when one rule to be deleted has fewer copies left, the
  whole script is refused, additions included (`StaleUpdateExactly`, `StaleClearingExactly`, `FlushedInBetween`).
- `lua_manager.go:353` collects an index once for every match. An update that names a plugin twice, a hash listed
  twice, or a hash with two running entries deletes a neighbour or indexes out of range (`RemovedExactly`).
  Deletions leave the running entries behind, so loading, deleting and loading a plugin again is enough
  (`ReloadedPlugin`).
- After a failed load the pending update of the configuration is not emptied (`PendingAreWaiting`). The next update
  loads the old entries again, so one file that does not load ends all later updates (`StuckForever`,
  `InstallsExactly`).
- `storer.go:54` renames indicator and tag of the cached item before it rejects a duplicate timestamp
  (`Memorizer.CacheField`). A duplicate under another indicator therefore hides all cached values of the item
  (`WindowAnswers`, `DuplicateHidesItem`), and the labels in cache and database differ until the next accepted add
  (`LabelsAgreeExactly`). Values never differ (`CacheAndDatabaseAgree`).
- `http_request.go:254` treats status 200 as a failure (`ClassifyCases`). Two saves in one second overwrite each
  other, and a deletion can hit the newer record (`LostExactly`, `SameSecondLoses`, `DeleteLoses`).
  The sweep deletes by key what it listed before, and hits a record saved meanwhile in the same way (`SweepLoses`).
- With more packets resent than TCP packets sent the bandwidth estimate is not bounded by the upload rate; without
  other packets it is not even rounded, while the upload rate is (`UpperClampActsExactly`, `ResendsExceedUpload`).
- The newest-event rule differs from a replay exactly for an untracked container whose batch ends in pause or unpause,
  and for one not running whose batch ends in a start that cannot be inspected (`CoalescingMatchesReplay`,
  `StartedAndPaused`). The tracker then stays wrong until a period ends in a stop, a death, or a start that can be
  inspected (`TrackingExactly`).
- The comment at `task_traffic_v1.lua:457` says that a process id matches with container id 1. The writing side asks
  for the offset of the text `"1"`, the reading side passes the number 1 and gets the default offset, so the two
  agree only if the script gives that offset (`ProcessRecognised`). The code is modelled, not the comment.
- Two entries that share an id are both charged with all of its bytes (`AttributedByClaims`, `ConservesExactly`).
- JSON nulls inside a tree are dropped on the way through Lua (`ThroughLua`).

## Model

| member | source | states |
|---|---|---|
| `Text.SplitAround` | plugins/input/iptables_rules_v1.lua:82-92 | a text splits into what stands on both sides of a separator; nothing into nothing, and a word into itself |
| `Text.DecimalText` | plugins/input/iptables_rules_v1.lua:669-673 | the text of a number has the usual digits, the most significant first, and no leading zero |
| `IptablesPlan.TasksFlowRules` | plugins/input/iptables_rules_v1.lua:658-675 | the decimal text of every class id in use has one rule, filled into the filter template, whichever names share it, and no other text has one |
| `IptablesPlan.PrintedRule` | plugins/input/iptables_rules_v1.lua:34-46 | the thirteen words of the rule printed for an id, the id being the eleventh |
| `IptablesPlan.PrintedLines` | plugins/input/iptables_rules_v1.lua:34-49 | the text of the declaration, the reference, its deletion and the drop of the chain |
| `IptablesLoader.AddRuleFiled` | plugins/input/iptables_rules_v1.lua:677-699 | parsing the printed rule of an id files, under exactly that id, a deletion text that names exactly that rule |
| `IptablesLoader.AddRuleMarks` | plugins/input/iptables_rules_v1.lua:34-46 | a printed rule carries the rule mark and neither of the other two search marks, so the loader cannot take it for a declaration or a reference |
| `IptablesLoader.CheckoutRepetitionRule` | plugins/input/iptables_rules_v1.lua:701-732 | for every visiting order: ids that occur once stay in the history, all copies of the others are listed as repeated |
| `IptablesLoader.LoadRules` | plugins/input/iptables_rules_v1.lua:734-779 | the rule map of the saved text, for every visiting order |
| `IptablesLoader.LoadedByCounts` | plugins/input/iptables_rules_v1.lua:734-779 | what is loaded depends only on how often each own line occurs, not on the order of the lines |
| `IptablesReconcile.LoadingReadsTable` | plugins/input/iptables_rules_v1.lua:734-779 | reading the saved text of any well-formed table, chains in any order, recovers declaration, number of references, ids and multiplicities |
| `IptablesPlan.DifferenceSet` | plugins/input/iptables_rules_v1.lua:781-790 | the keys of one map that the other lacks, each once, in some order |
| `IptablesPlan.GenerateRules` | plugins/input/iptables_rules_v1.lua:797-852 | the update script is creation, deletion of repeated and of stale rules, additions, then the reference lines, up to the visiting order |
| `IptablesPlan.NothingWanted` | plugins/input/iptables_rules_v1.lua:797-852 | without class ids in use an update script would only delete |
| `IptablesPlan.ClearChainRules` | plugins/input/iptables_rules_v1.lua:854-894 | the clearing script deletes every own rule and every reference and then the chain, up to the visiting order |
| `IptablesPlan.FlowTag` | plugins/input/iptables_rules_v1.lua:896-935 | clears when told to or when no id is wanted, updates otherwise; an empty script is not stored |
| `IptablesReconcile.DoomedCounts` | plugins/input/iptables_rules_v1.lua:797-852 | the deletion lines name every copy of each doomed rule exactly as often as it occurs, so no deletion misses and none stops short |
| `FilterTable.OneTarget` | plugins/input/iptables_rules_v1.lua:34-49 | a rule with one target jumps to that chain and no other, and needs it to exist unless it is a standard one |
| `FilterTable.RestoreDeletesAll` | plugins/input/iptables_rules_v1.lua:585-603 | an all-or-nothing restore that names every copy of some rules succeeds and leaves all other rules in order |
| `FilterTable.RestoreDeletesExactly` | plugins/input/iptables_rules_v1.lua:585-603 | deletion lines are accepted if and only if the chain holds at least as many copies of each rule as they name; the rules left over are counted exactly and the others keep their order |
| `IptablesConvergence.UpdateConverges` | plugins/input/iptables_rules_v1.lua:701-852 | from any well-formed table and any non-empty wanted set, in any visiting order, every command is accepted; afterwards each wanted id has one rule, no other id has one, there is one reference, all else stands in order |
| `IptablesConvergence.UpdateIsStable` | plugins/input/iptables_rules_v1.lua:658-852 | an update of a converged table prints an empty script |
| `IptablesConvergence.ClearingIsExact` | plugins/input/iptables_rules_v1.lua:854-894 | a clearing script is accepted if and only if the chain is absent, or holds no foreign rule and no foreign rule jumps to it; then every trace of it is gone and nothing else, otherwise nothing happens |
| `IptablesStale.StaleUpdateExactly` | plugins/input/iptables_rules_v1.lua:658-852 | an update script computed from one table, on any other: exactly when it is accepted, when it reaches the target and whether foreign rules stay, for each of the three cases of which table has the chain |
| `IptablesStale.StaleClearingExactly` | plugins/input/iptables_rules_v1.lua:854-894 | a clearing script computed from one table is accepted by another if and only if that one holds the same class-id rules as often, as many references, and nothing else in or to the chain |
| `IptablesStale.FlushedInBetween` | plugins/input/iptables_rules_v1.lua:734-852 | a chain flushed between saving and restoring makes every update with a rule to delete fail as a whole |
| `IptablesRounds.RoundEffect` | plugins/input/iptables_rules_v1.lua:896-935 | the effect of one whole round that could read the table, update or clearing, on any well-formed table |
| `IptablesRounds.RunsConverge` | plugins/input/iptables_rules_v1.lua:896-935 | over any number of rounds with changing ids, any of whose reads may fail: tables stay well-formed, every update is accepted, every update that could read reaches its target, foreign rules outside the custom chain never change and those in it stay as long as no update failed to read |
| `IptablesRounds.TasksAreCounted` | plugins/input/iptables_rules_v1.lua:658-675 | over any run, after each update that could read the table the class id of every name stands in exactly one rule of the custom chain, and every class-id rule there is that of some name |
| `IptablesRounds.ForeignRulesStay` | plugins/input/iptables_rules_v1.lua:896-935 | rule by rule over any run: no other chain comes, goes or changes; any two foreign rules of the default chain stay as often and in the same order, and any two of the custom chain do as long as no update failed to read |
| `IptablesRounds.RepeatedUpdate` | plugins/input/iptables_rules_v1.lua:896-935 | the second of two updates for the same ids prints nothing and changes nothing |
| `IptablesRounds.UnreadableUpdate` | plugins/input/iptables_rules_v1.lua:208-210 | after a failed read the script is still accepted and leaves a well-formed table; it reaches the target if and only if there was no reference, and spares foreign rules if and only if the custom chain held none |
| `IptablesRounds.UnreadableRound` | plugins/input/iptables_rules_v1.lua:896-935 | one whole round after a failed read: a clearing does nothing, an update keeps all foreign rules outside the custom chain |
| `IptablesRounds.SharedClearingFails` | plugins/input/iptables_rules_v1.lua:854-894 | a table with one foreign rule in the custom chain on which clearing is refused |
| `IptablesRounds.SharedUnreadableFails` | plugins/input/iptables_rules_v1.lua:208-210 | on the same table an unread update doubles the reference and drops the foreign rule |
| `PluginSwap.CollectIndices` | manager/lua_manager.go:353-443 | the indices collected by the nested loops, in loop order, repeats included |
| `PluginSwap.DeletePositions` | manager/lua_manager.go:353-443 | deletion in place of the positions in turn; every dropped plugin is closed once |
| `PluginSwap.RemovedExactly` | manager/lua_manager.go:353-443 | collect, sort descending and delete leaves exactly the unmatched plugins in order if and only if no running plugin is matched twice |
| `PluginSwap.ReplacementKeepsNamesUnique` | manager/lua_manager.go:353-443 | with distinct update names the swap never fails and keeps at most one plugin of each name |
| `PluginSwap.RepeatedHashTakesNeighbour` | manager/lua_manager.go:468-536 | concrete lists on which a repeated hash removes a neighbour, or runs off the end |
| `PluginManager.Config.TryUpdateConfig` | config/config.go:233-253 | each configuration file with another hash than the one current at its turn is registered and becomes current; register and current hash afterwards, for any visiting order |
| `PluginManager.AdoptedExactly` | config/config.go:233-253 | whatever the order, every configuration other than the first current one is adopted, nothing else than configurations is, and the last one adopted is current |
| `PluginManager.Config.ParsePluginMarking` | config/config.go:273-332 | registers every file, adopts configurations, and files exactly the new marked plugins by category, in any visiting order |
| `PluginManager.Config.CheckoutConfig` | config/config.go:456-492 | unregisters the listed hashes and checks out all running entries of each, per category |
| `PluginManager.Config.ReplaceRunningConfig` | config/config.go:404-429 | the update entries are appended to the running ones and the update is emptied |
| `PluginManager.LuaPluginManager.UpdatePlugins` | manager/lua_manager.go:309-351 | succeeds if and only if every entry loads; then the cache holds an instance of each in order, otherwise those of whole categories and of the entries up to the first bad one |
| `PluginManager.LuaPluginManager.RemoveUpdateCache` | manager/lua_manager.go:445-466 | drops and closes a partly loaded update |
| `PluginManager.LuaPluginManager.ReplaceRunningPlugin` | manager/lua_manager.go:353-443 | all four categories are swapped, every plugin is afterwards running or closed, never both or neither |
| `PluginManager.LuaPluginManager.RemoveRunningPlugin` | manager/lua_manager.go:468-536 | all four categories lose the plugins that the entries match by hash, with the same accounting |
| `PluginManager.HandleUpdate` | manager/lua_manager.go:208-239 | receiver and executor halves together are exactly one update step, also when nothing is new, an entry does not load, or an index is out of range; the caches end empty |
| `PluginManager.HandleDelete` | manager/lua_manager.go:241-261 | receiver and executor halves together are one deletion step; caches end empty |
| `PluginRuns.StepKeepsConfigured` | manager/lua_manager.go:208-261 | one step of any kind keeps: each running plugin has a running configuration of its hash and category |
| `PluginRuns.GoodRuns` | manager/lua_manager.go:208-261 | in runs whose loads succeed and that load no hash twice, no swap indexes out of range and names and hashes stay unique |
| `PluginRuns.AfterDeletion` | config/config.go:456-492 | in any run that loads no hash twice, whatever fails to load or shares a name, a deletion that lists no hash twice never indexes out of range, removes every listed plugin and keeps all others in order |
| `PluginRuns.DeletionExactly` | manager/lua_manager.go:468-536 | in any configured state a deletion is exact if and only if each listed running plugin is listed once and has one running entry |
| `PluginRuns.ReloadedPlugin` | config/config.go:404-429 | a plugin loaded, deleted and loaded again loads, and then is never deleted exactly |
| `PluginPending.StartIsGood` | config/config.go:356-379 | the start of the program satisfies the configuration invariant, and all the invariants of good runs if and only if no two local plugins of a category share a name |
| `PluginPending.StartIsLoadedOnce` | config/config.go:356-379 | the start of the program has one entry for each hash, whatever the names |
| `PluginPending.RunsStayConfigured` | manager/lua_manager.go:208-261 | in every run from the start, whatever loads, fails, comes again or is deleted, each running plugin has a running configuration of its hash and category |
| `PluginPending.PendingAreWaiting` | manager/lua_manager.go:208-239 | at every point of every run the pending entries are exactly those of the updates that failed since the last installed one, in order |
| `PluginPending.UpdatesEmptyIff` | manager/lua_manager.go:208-239 | nothing is pending if and only if no update that failed since the last installed one brought a plugin of a known category |
| `PluginPending.StuckForever` | manager/lua_manager.go:309-351 | once an entry that never loads is pending, no later update installs a plugin or touches the running configuration |
| `PluginPending.InstallsExactly` | manager/lua_manager.go:309-351 | with a fixed set of files that do not load, an update with new plugins is installed if and only if neither it nor any earlier one brought such a file |
| `PluginEffects.AfterUpdate` | manager/lua_manager.go:353-443 | after an installed update in a good run no two plugins of a category share a name; exactly the new ones and the running ones whose name the update does not carry are left, the latter in order and in front |
| `PluginEffects.DeletionKeepsOrder` | manager/lua_manager.go:468-536 | a deletion keeps the plugins with other hashes in order and no others |
| `PluginEffects.UpdateEffect` | manager/lua_manager.go:208-239 | what one update does in each case, field by field: the register gains the hashes of all files; without a new marked file nothing else happens, and with one that does not load nothing is installed |
| `PluginEffects.StartEffect` | config/config.go:356-379 | the start registers its own hash and all local files, and runs exactly the new marked ones |
| `PluginEffects.KnownFilesChangeNothing` | config/config.go:356-379 | an update that brings only files known at the start changes nothing |
| `PluginRuns.DifferenceSlice` | pkg/util/util.go:178-202 | the two halves of the difference, in order |
| `PluginRuns.DifferenceApplies` | pkg/util/util.go:178-202 | the halves are disjoint, and old minus deletions plus additions is new |
| `PluginRuns.BatchesCommute` | manager/lua_manager.go:208-261 | update then delete and delete then update end in the same lists, configurations and register |
| `PluginRuns.RegisterReachesTarget` | config/config.go:255-271 | after both halves the register is the target list and the hash of the collector configuration |
| `Handshake.HandshakeIsSafe` | executor/executor.go:176-208 | in every interleaving one token circulates while the receiver waits and none otherwise; no send blocks; the receiver prepares nothing while the executor handles a batch |
| `Handshake.TicksSeeWholeVersions` | executor/executor.go:87-174 | a completed tick, and the first collection, read lists of one version, wholly before or wholly after a swap |
| `Handshake.SwapsAreAtomic` | executor/executor.go:176-208 | the interleaved swap refines one atomic swap of the batch that was sent |
| `Handshake.HandoverEnabled` | manager/lua_manager.go:168-206 | while the receiver waits, some step that is not a new tick is enabled, unless an index ran out of range |
| `HandshakeRuns.RefinesRuns` | manager/lua_manager.go:168-261 | every interleaving of the goroutines is a run of whole updates and deletions: whenever the receiver is idle, register, configurations and lists are the state that run has reached; in between the lists are those before or after the step; an index runs out of range only if the step does |
| `HandshakeRuns.TicksSeeRunStates` | executor/executor.go:87-174 | a completed tick has run the four lists of one state of that run |
| `HandshakeRuns.AlwaysConfigured` | manager/lua_manager.go:168-261 | from the start of the program, in every interleaving, each plugin in the lists has a running configuration whenever the receiver is idle |
| `HandshakeRuns.DeletionsTakeEffect` | manager/lua_manager.go:241-261 | in every interleaving whose operations load no hash twice, a deletion never makes the executor index out of range, and from its end until the next operation the lists are those before it without the listed plugins |
| `HandshakeProgress.NeverStuck` | manager/lua_manager.go:168-261 | from the start of the program, in every interleaving, an idle receiver takes any operation, and while one is under way some action other than a new tick or the start of the first collection can happen, unless an index ran out of range |
| `Storage.Search` | storage/metric.go:190-218 | keys in [start, end), ascending, each once, with their values; an error for a reversed range |
| `Storage.DelFields` | storage/metric.go:150-188 | removes exactly the closed interval |
| `Storage.SortInt64` | pkg/util/util.go:72-77 | any slice, equal elements included, ends ascending and a permutation of what it was |
| `Storage.Memorizer.CacheField` | storage/storer.go:54-104 | a timestamp is written once; a rejected write still renames indicator and tag |
| `Storage.Memorizer.AddField` | storage/storer.go:54-104 | cache and database after an add, as one step of the run model |
| `Storage.Memorizer.GetFieldsMap` | storage/storer.go:168-191 | the answer of the search, or an error for a missing item or another indicator |
| `Storage.Memorizer.GetFields` | storage/storer.go:132-166 | the same values in key order |
| `Storage.Memorizer.CleanCache` | storage/storer.go:242-259 | every item loses exactly the closed interval |
| `Storage.Memorizer.CleanOnce` | storage/storer.go:268-301 | one period of the sweep loop when nothing comes between, cache and database |
| `StorageRuns.RoundIsRun` | storage/storer.go:268-301 | that period is a cache sweep and two expiry steps of the run model, between which adds may come |
| `Database.Messenger.Clean` | storage/db_operation.go:196-230 | the named buckets lose exactly the integer keys strictly inside the interval |
| `Database.ExpiredKeys` | storage/db_operation.go:196-230 | the keys of a bucket that a sweep collects |
| `Database.Messenger.DelData` | storage/db_operation.go:100-107 | one key goes from one bucket and all else stays; it fails if and only if the bucket is missing, and then nothing changes |
| `Storage.MetadataInjective` | storage/db_operation.go:241-260 | the stored metadata text determines indicator and tag |
| `Storage.MetadataReads` | storage/db_operation.go:29-32 | a JSON reader of the stored metadata finds the indicator under "indicator" and the tag under "tag", and nothing else |
| `StorageRuns.CacheIsFirstAdded` | storage/storer.go:54-104 | over any run the cache holds at every timestamp the first value added since the last sweep that reached it |
| `StorageRuns.CachedLabels` | storage/storer.go:54-104 | the cached labels of an item are those of the last attempted add, accepted or not |
| `StorageRuns.WindowAnswers` | storage/storer.go:132-191 | over any run and for any window a query is answered if and only if the last attempted add of the item carried its indicator; the answer is then a filter of the append log, ascending |
| `StorageRuns.DuplicateHidesItem` | storage/storer.go:54-104 | two adds after which a value is cached and a query under its own indicator finds nothing |
| `StorageRuns.DatabaseIsLastFiled` | storage/storer.go:54-104 | over any run the database holds at every timestamp the value of the last accepted add, until a deletion that lists its key reaches it |
| `StorageRuns.CacheAndDatabaseAgree` | storage/storer.go:54-104 | in every state a cached value is stored with the same value; it may only be missing, and only if a deletion of the run listed its key strictly inside its interval |
| `StorageRuns.LabelsAgreeExactly` | storage/storer.go:54-104 | the cached labels agree with the stored metadata if and only if no rejected add since the last accepted one left other labels |
| `StorageRuns.ExpiryIsExact` | storage/storer.go:268-301 | one deletion of expired keys, with any earlier listing of keys, removes exactly the listed keys inside its interval and never the metadata |
| `StorageRuns.SweepIsExact` | storage/storer.go:268-301 | a sweep removes exactly the expired keys of the cached items and of the report bucket, and never the metadata |
| `Report.ClassifyCases` | report/http_request.go:250-262 | 201 to 300 is done, 400 and 409 are dropped, 200 and everything else is retried |
| `Report.ReportsAreConserved` | report/http_request.go:265-403 | over every interleaving of sender, retrier and sweep, each bucket access a step of its own, each uploaded report is in exactly one of seven places: queued, in flight, stored, acknowledged, rejected, expired, lost |
| `ReportRuns.AnsweredExactly` | report/http_request.go:250-262 | over any run a report is acknowledged if and only if some sending or resending of it was answered with 201 to 300, and rejected if and only if one was with 400 or 409 |
| `ReportRuns.TakenInOrder` | report/http_request.go:287-312 | reports are taken in upload order: those taken followed by those queued list the uploads |
| `ReportRuns.QueueIsBounded` | report/http_request.go:405-410 | at most ten reports wait, and an upload blocks if and only if ten do |
| `ReportRuns.FailureIsSaved` | report/http_request.go:287-312 | a report without a final answer is saved under the second of the save |
| `ReportRuns.ReadingIsComplete` | report/http_request.go:314-327 | a round of retries starts only when every record listed for it was read, and resends what was recorded then |
| `ReportRuns.RoundsAreComplete` | report/http_request.go:329-368 | a round of retries ends only when everything it had read was resent |
| `Report.DeletesAfterOutcome` | report/http_request.go:329-368 | the retrier deletes only under the key of a report that got a final answer |
| `Report.NothingIsLost` | report/http_request.go:265-368 | with distinct save seconds nothing is ever lost, and the retrier and the sweep delete the very record they had read or listed |
| `Report.LostExactly` | report/http_request.go:265-368 | when exactly a report is lost: a save overwrites its unanswered record, the retrier deletes the record that replaced the answered one, or the sweep deletes the record that replaced the one it listed |
| `Report.ExpiredExactly` | storage/db_operation.go:196-230 | a report expires if and only if the sweep deletes the record that it had listed for it |
| `Report.SweepListsOld` | storage/db_operation.go:196-230 | in every interleaving what the sweep is about to delete are records it found strictly before its deadline |
| `ReportRuns.SweepIsComplete` | storage/db_operation.go:196-230 | a sweep is over only when it has deleted every key below its deadline that was recorded when it began |
| `Report.SameSecondLoses` | report/http_request.go:265-328 | a run in which two saves of one second lose the first report |
| `Report.DeleteLoses` | report/http_request.go:329-368 | a run in which the deletion after an answer loses the report saved meanwhile |
| `Report.SweepLoses` | storage/db_operation.go:196-230 | a run in which the sweep deletes a report saved after it had listed its second |
| `DockerEvents.EventsStorage.Filter` | pkg/docker_operator/events_handler.go:45-62 | lifecycle events are cached per container in order of arrival, all others ignored |
| `DockerEvents.EventsStorage.UpdateStatus` | pkg/docker_operator/events_handler.go:64-114 | one status moves one container between absent, running and paused; the two maps stay disjoint |
| `DockerEvents.EventsStorage.Update` | pkg/docker_operator/events_handler.go:116-132 | in any map order every cached container gets its newest status and no other container changes |
| `DockerEvents.NewestIsMaximal` | pkg/docker_operator/events_handler.go:116-132 | the applied event is the first of the newest ones with a positive time, if there is any |
| `DockerEvents.NewestIgnoresOrder` | pkg/docker_operator/events_handler.go:116-132 | the applied event does not depend on the order of arrival |
| `DockerEvents.CoalescingMatchesReplay` | pkg/docker_operator/events_handler.go:64-132 | for every legal batch applying only the newest event equals replaying all, if and only if it is not a batch of an untracked container that ends in pause or unpause, nor of one not running that ends in a start that cannot be inspected |
| `DockerEvents.TrackingExactly` | pkg/docker_operator/events_handler.go:64-132 | over any number of periods, inspections succeeding or failing, the tracker agrees with a replay of all events, except exactly while a container last started, paused or unpaused is hidden from it; only a stop or death hides one, only an inspected start shows it |
| `DockerEvents.InformationAfter` | pkg/docker_operator/events_handler.go:64-114 | what information a container carries after one period: the inspected one after a start or an unpause of a tracked container, and what it carried before after a pause |
| `DockerEvents.InformationIsLatest` | pkg/docker_operator/events_handler.go:64-132 | over any number of periods a tracked container carries the information of the last period that renewed it |
| `DockerEvents.StartedAndPaused` | pkg/docker_operator/events_handler.go:64-132 | two events of one period after which a paused container is untracked |
| `Traffic.FormulasCoincide` | plugins/processor/diff_traffic_v1.lua:163-189 | the TCP-only and the mixed estimate agree when all packets are TCP |
| `Traffic.EstimateInRange` | plugins/processor/diff_traffic_v1.lua:163-189 | the estimate lies between 0 and the upload rate before either clamp acts |
| `Traffic.ClampsAreIdle` | plugins/processor/diff_traffic_v1.lua:191-230 | for samples with such growth the reported bandwidth is the unclamped estimate |
| `Traffic.LowerClampActsExactly` | plugins/processor/diff_traffic_v1.lua:178-188 | the clamp at zero acts if and only if headers and resent bytes outweigh the bytes sent; with only TCP packets, if and only if the headers do and not every packet was resent |
| `Traffic.ReportedExactly` | plugins/processor/diff_traffic_v1.lua:163-222 | the reported value for any two samples: between 0 and the upload rate, 0 without packets, otherwise the estimate cut to those bounds, and the estimate in terms of 66 and 50 header bytes and the resent share |
| `Traffic.UpperClampActsExactly` | plugins/processor/diff_traffic_v1.lua:163-222 | the clamp at the upload rate acts if and only if the program bits reach the next whole rate above it, or with only TCP packets and more of them resent than sent exceed the rounded rate; never unless more packets were resent than TCP packets sent |
| `Traffic.ResendsExceedUpload` | plugins/processor/diff_traffic_v1.lua:163-189 | counters for each branch on which the estimate exceeds the upload rate |
| `Traffic.WindowSlots` | executor/tick.go:15-20 | a time is in the window of a tick if and only if it lies in the current interval or the one before |
| `Traffic.WindowBounds` | executor/tick.go:15-20 | the window is two intervals long, holds the present in its second half, and starts at a multiple of the interval counted from the first day of year 1 |
| `Traffic.TickPairsNeighbours` | plugins/processor/diff_traffic_v1.lua:39-70 | with one sample an interval, the tick after sample k compares exactly samples k-1 and k |
| `Traffic.RateIsAverage` | plugins/processor/diff_traffic_v1.lua:98-122 | the integer rate is what the processor computes from two samples |
| `Traffic.WholeCounters` | plugins/processor/diff_traffic_v1.lua:75-122 | growth, rate and bits of a whole-number counter, and zero for one that went back |
| `Traffic.MissingCounters` | plugins/processor/diff_traffic_v1.lua:75-122 | zero for a counter that is missing or no number on one side, or without time between |
| `Traffic.RatesTelescope` | plugins/processor/diff_traffic_v1.lua:98-122 | the sum over neighbouring samples: rates times seconds never exceed the bits sent and miss less than one bit a second |
| `Traffic.TicksTelescope` | plugins/processor/diff_traffic_v1.lua:39-122 | the same for the rates that the ticks really report: each searches the store as it is then and applies the processor to the answer |
| `Traffic.RunsTelescope` | plugins/processor/diff_traffic_v1.lua:39-122 | the same over any run of adds and sweeps, in terms of what was logged |
| `ClassId.BitByBit` | pkg/util/util.go:79-93 | conjunction and disjunction work digit by digit, on negative numbers in two's complement |
| `ClassId.ShiftedLeft` | pkg/util/util.go:79-93 | a left shift is the product with a power of two, cut to a signed 64-bit number |
| `ClassId.PackedFields` | plugins/input/iptables_rules_v1.lua:549-552 | the id is below 2^32, and all three masked fields can be read back from it |
| `ClassId.SharedIds` | plugins/input/iptables_rules_v1.lua:549-552 | two ids are equal if and only if all three masked fields are |
| `ClassId.IdOfTask` | plugins/input/iptables_rules_v1.lua:524-553 | the id of a task from its name, index, serial number and owner: offset, serial number and index side by side, each cut to its width |
| `ClassId.SerialsApart` | plugins/input/iptables_rules_v1.lua:524-553 | names whose serial numbers differ in the low byte never share an id |
| `ClassId.NoIdExactly` | plugins/input/iptables_rules_v1.lua:524-553 | when exactly no id is given: a tag without index, or all three masked fields zero |
| `ClassId.DashedNameHasNoId` | plugins/input/iptables_rules_v1.lua:524-553 | a name with a dash gets no id, unless the part after the dash is a number |
| `ClassId.ContainerRecognised` | plugins/input/task_traffic_v1.lua:453-468 | the reading side accepts every positive id the writing side stored for a container |
| `ClassId.ProcessRecognised` | plugins/input/task_traffic_v1.lua:591-615 | a process is accepted if and only if the offset script gives "1" the default offset |
| `ClassId.ShownIsRead` | plugins/input/task_traffic_v1.lua:356-375 | the id read from the kernel file is the id written to it |
| `ClassId.PaddedIsRead` | plugins/input/task_traffic_v1.lua:356-375 | blanks around the number do not matter; a negative number or a blank file reads as no id |
| `Attribution.MatchData` | plugins/input/task_traffic_v1.lua:727-769 | the sum of the matching lines for one entry; nothing for a bridged one over IPv6 |
| `Attribution.CounterReads` | plugins/input/task_traffic_v1.lua:687-710 | a counter is printed as packets and bytes in brackets, and what is read of it are the bytes |
| `Attribution.TaskBytes` | plugins/input/task_traffic_v1.lua:727-769 | over the counted text of any well-formed table an entry gets the counters of the rules with its id and no others |
| `Attribution.TaskGetsItsCounter` | plugins/input/task_traffic_v1.lua:727-769 | after any update round that could read the table, the bytes read for a name are the counter of the one rule that carries its class id |
| `Attribution.AttributedByClaims` | plugins/input/task_traffic_v1.lua:771-822 | each counter is attributed as many times as there are entries with its id |
| `Attribution.ConservesExactly` | plugins/input/task_traffic_v1.lua:771-822 | the attributed bytes equal the counted bytes for all counter values if and only if each own rule has exactly one entry |
| `Attribution.ConvergedAttribution` | plugins/input/task_traffic_v1.lua:771-822 | on a converged chain with one host entry for each id, the attributed bytes add up to what the own rules counted |
| `Attribution.AttributionAfterUpdate` | plugins/input/task_traffic_v1.lua:771-822 | the same after any update round from any well-formed table |
| `Converter.CheckList` | pkg/converter/converter.go:11-22 | a table is a list if and only if no string key holds a value, so an empty table is one |
| `Converter.MarshalValue` | pkg/converter/converter.go:42-66 | the list or dictionary form of every value, loops in any map order |
| `Converter.MixedMembers` | pkg/converter/converter.go:24-66 | a table with a string key becomes an object of its string keys and of the decimal positions, counted from one, of its elements, string keys winning |
| `Converter.ListItems` | pkg/converter/converter.go:24-66 | a table without string keys becomes an array of its elements in order |
| `Converter.UnmarshalValue` | pkg/converter/converter.go:78-118 | the table of every tree, case by case; nothing is stored for a null member |
| `Converter.ThroughLua` | pkg/converter/converter.go:42-118 | a tree sent through Lua changes exactly this: nulls inside it are dropped, objects left without members become empty arrays |
| `Converter.UnchangedExactly` | pkg/converter/converter.go:42-118 | a tree survives if and only if it has no null inside and no empty object |
| `Converter.NullFreeThroughLua` | pkg/converter/converter.go:42-118 | a null-free tree keeps its shape, except that each empty object becomes an empty array |
| `Converter.ThroughLuaTwice` | pkg/converter/converter.go:42-118 | the composite is idempotent |
| `Converter.ThroughJsonExactly` | pkg/converter/converter.go:42-118 | a value without stored nils survives the way through JSON if and only if it is hereditarily a plain sequence or purely string-keyed |
| `Framing.Uint32RoundTrip` | pkg/rw/integer.go:13-17 | four big-endian bytes give back the number |
| `Framing.Reader.ReadUint32` | pkg/rw/integer.go:69-78 | four bytes are consumed, or an error uses up the stream |
| `Framing.WriteBytes` | pkg/rw/bytes.go:13-35 | the whole frame is written, or a proper prefix of it and an error |
| `Framing.ReadBytes` | pkg/rw/bytes.go:37-58 | fills the variable with the frame in front and consumes it, or leaves the variable alone and fails |
| `Framing.ReadBytesAlt` | pkg/rw/bytes.go:60-78 | the same by value |
| `Framing.FrameReads` | pkg/rw/bytes.go:13-58 | reading a frame gives its message and what follows, if and only if the message is nil or shorter than 2^32-1 bytes |
| `Framing.ReadsExactly` | pkg/rw/bytes.go:13-58 | a stream yields a message and a rest if and only if it is the frame of that message, which is nil or shorter than 2^32-1 bytes, followed by that rest |
| `Framing.FrameLayout` | pkg/rw/bytes.go:13-35 | four length bytes, the most significant first, then the message; four bytes of 255 alone for nil |
| `Framing.FramesRead` | pkg/rw/bytes.go:13-58 | a list of frames reads back as the list, trailing bytes untouched |
| `Framing.PrefixFree` | pkg/rw/bytes.go:13-35 | no frame is a proper prefix of another |
| `Framing.CutFrameIsRefused` | pkg/rw/bytes.go:37-78 | every truncated frame is an error |
| `Framing.CutFramesAreRefused` | pkg/rw/bytes.go:37-78 | a cut list of frames never yields all of its messages |
| `Framing.FramesInjective` | pkg/rw/bytes.go:13-58 | the bytes of a list of frames determine the list |
| `Framing.Exchange` | pkg/rw/bytes.go:13-58 | over a connection that may break, a message arrives whole or is refused, never altered |

## Left out

- Traffic: the Lua numbers are 64-bit floats; the model uses real numbers, so rounding, overflow and byte counts above 2^53 are not modelled.
- Traffic: drop and error ratios and the per-container and per-line tables apply the same rate functions field by field; they would only add easy members.
- FilterTable: jump targets outside the table are the four standard ones; extension targets, the header line and COMMIT line of the script file, and the atomicity of writing that file are not modelled.
- IptablesLoader: the raw_output template prints rules the loader does not read back; only filter_output is modelled. Words are separated by spaces; tabs inside a saved line are not.
- IptablesConvergence: IPv4 and IPv6 tables are reconciled independently by the same code, so one of them is modelled.
- ClassId: an offset script that prints no number makes the Lua code raise an error; the model takes the script as a function to integers. Serial numbers and indices are read as decimal integers, not as decimal fractions.
- Attribution: the device file of a bridged container is a parameter. Counters are decimal and below 2^63.
- PluginSwap: the four categories are one record with a field for each, and one generic routine stands for the repeated loops over Inputs, Processors, Aggregators and Outputs. The lists are sequences that the methods reassign; sharing of the underlying Go arrays is not modelled.
- PluginManager: when an index is out of range the Go program panics; the state in which it leaves the lists is unspecified here. Whether a plugin loads is decided by its hash: an update comes with the set of hashes that do not. Parsing of marking lines, the include and exclude lists, and files written or deleted on disk are not modelled.
- HandshakeRuns: receiving an operation, with its parsing and its changes to the register, is one action; loading and checking out go entry by entry, in order within each category.
- Handshake: fairness, timers, shutdown and closed channels are not modelled; that some step is enabled is proved, that it is eventually taken is not.
- Storage: Metric is a value in the cache map that the methods reassign instead of a shared pointer; the lock makes each call atomic. Of the escaping in the stored metadata, quotes and backslashes are modelled. Tags, SearchData and Has are not modelled.
- Database: bbolt is a map from buckets to maps with atomic operations that fail only for a missing bucket.
- Report: the reports are numbers, and the queue, the bucket and the snapshot are fields of one state value, since three goroutines interleave on them. That the sweep and the retrier see keys in the order of the bucket is left open. Encoding of reports, records that cannot be decoded, a database that fails, process restarts and shutdown are not modelled.
- DockerEvents: an inspection is an optional result for each container; the statistics map and the Docker client are not modelled.
- Converter: tables have a sequence part and string keys; other key types, very large indices and the three-way guess of JsonUnMarshal about the shape of its text are not modelled.
- Framing: Uint64ToBytes writes eight bytes into four and is not used; the 16-bit and 64-bit integers are not modelled. A write fails only by running out of room.
