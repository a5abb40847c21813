# Verified models of the Voya core algorithms

This project models the self-contained algorithms and protocols of the Voya desktop
client in Dafny and proves what they are for:

- **Group resolution and validation.** Policy groups and proxy chains list each other and
  may form cycles. The builder cuts edges to ancestors, remembers finished nodes, drops
  groups without a valid child and stores the result in one proxy map, for the active node
  and then for every routing rule. The validator searches a draft for cycles without
  remembering anything. Both are modelled as they run (classes that change a map, a stack
  and a report) and proved against recursive specifications. Modules `Digraph`, `Profiles`,
  `GroupResolution`, `GroupCycles`, `GroupValidation`, `GroupAgreement`, `ContextBuild`,
  `BuildGraph`, `BuildServers`, `HiddenServer`, `PassOverlay`, `PassServers`; what the check of
  a draft says in `DraftIndexOrder`, `DraftWarnings`, `DraftOrder`, `DraftVerdict`; which
  names, lists and notes a build leaves in `RuleAliases`, `ChildOrder`, `StoredOrder`,
  `GroupNotes`.
- **Child processes.** Callers, reaper threads, control channels, the table and its lock are
  a transition system over arbitrary interleavings. Modules `ChildReaper`,
  `ReaperInvariant`, `ReaperRuns`, `ReaperAnswers`, `ReaperExits`, `ConcurrentStops`,
  `PidReuse`.
- **Configuration mutations.** Lock, snapshot, transaction, commit, publication and reload
  after a crash; what of a configuration is stored; settings saved with compensation.
  Modules `SettingsProjection`, `SettingsSpelling`, `ConfigMutation`, `MutationResults`,
  `ConfigGuard`.
- **The system-proxy marker.** A file written before a proxy is set and removed after it is
  cleared, through crashes and errors at any step and through calls that overlap. Modules
  `SystemProxy`, `ProxyReport`, `ProxyOverlap`.
- **Text.** The line diff of the golden harness, two PEM parsers and a printer, base64 and
  UTF-8, subscription payloads, shell and XML quoting, the command-line splitter, URL
  redaction. Modules `LineDiff`, `DiffText`, `PemMarkers`, `PemCertificates`, `PemReading`,
  `PemBlocks`, `PemBlockReading`, `Base64`, `Utf8`, `Subscription`, `EncodingTables`,
  `ShellQuoting`, `CommandLine`, `CommandGrammar`, `Redaction`, `RedactionText`, with
  `Search` and `Text` below them.
- **Reconnect delays.** Module `Backoff`.

Code that changes state or loops is a method or a class; each such method is proved equal
to a function of its inputs or of the old state, and the theorems are about that function.
`dafny verify dfyconfig.toml` checks everything.

## What the code does not do

Some properties that one would expect fail. The model keeps the code as it is, and for each
of them there is an input that shows the failure and a condition for the rest:

- A later routing-rule pass may store a group again with fewer children, so that a server
  the active node led to is no longer listed below it; `HiddenServerExample` builds five
  profiles and one rule with that result. The active node, with or without cycles below it,
  keeps all its servers when no rule registers another group that shares a cycle with it
  (`BuildListsAll`). For one rule that does, among others that do not, `OneRuleLosesExactly`
  says which servers are lost, from two maps known before its pass. Acyclicity and closure
  survive all passes (`BuildKeepsGraph`).
- The core's `parse_pem_chain` panics when an END marker shares the dashes that close a
  BEGIN marker (`SharedDashesExample`), and only then (`PanicsExactly`).
- The splitter undoes `quote_shell_arg` only for arguments without backslashes
  (`PrintedExactly`), and `quote_path` only for non-empty paths without double quotes and
  backslashes (`QuotedPathExactly`). A POSIX shell reads every `quote_shell_arg` form back.
- Redaction skips a URL whose `:` ends the authority of the URL before it
  (`SwallowedExample`), and only such a URL (`RedactedExactly`, `SeparateUrlsRedacted`).
- Calls to the system-proxy manager that overlap can leave a proxy without a marker: any
  number of them is safe if and only if they do not include both one that can set a proxy
  and one that can clear it (`OverlapSafeExactly`). Calls one after another are always safe.
- A stop that returns success while another stop of the same child, or the drop, is under way
  may leave the child running (`SecondStopReturnsEarly`). Otherwise the child it was begun
  for has been reaped when it returns, or the system has failed on it (`StopEndsLaunched`).
- The system may give a pid to a new child once the old one is reaped. If that happens
  before the old reaper has removed its table entry, the old reaper removes the new child's
  entry, and the new reaper finds its channel closed (`PidReuse.ForeignEntryDisconnects`
  has the run). With distinct pids among unfinished reapers nothing does that
  (`NeverDisconnected`).

## Model

| member | source | states |
|---|---|---|
| Profiles.FindSelf | crates/voya-app/src/coregen.rs:57-62 | with unique ids, looking up a stored profile's id finds that profile |
| Profiles.Env.OrderedByIds | crates/voya-app/src/coregen.rs:71-76 | holds exactly the stored profiles that a lookup of a listed id gives; unknown ids are skipped |
| ChildOrder.OrderedByIdsInOrder | crates/voya-app/src/coregen.rs:71-76 | looking up a list of ids gives the profiles of exactly those that are stored, each at its place |
| Profiles.Env.ChildProfiles | crates/voya-core/src/context.rs:529-569 | holds exactly the accepted members of the source subscription that pass the filter and the listed stored profiles; nothing for a node that is no group |
| ChildOrder.ChildProfilesOffered | crates/voya-core/src/context.rs:529-569 | the children are what the group offers, in this order and with nothing left out: first the servers of its subscription in stored order, then the listed ids in listed order |
| GroupResolution.TraverseWrites | crates/voya-core/src/context.rs:428-527 | a failed traversal leaves the visited set and the map unchanged; a successful one writes only under its node and what it newly finished |
| GroupResolution.TraverseEstablishes | crates/voya-core/src/context.rs:428-527 | every traversal, at any depth, keeps the finished part acyclic, closed and covering: all paths to servers from what it finished pass through finished ids or ancestors |
| GroupResolution.ResolutionPreservesServers | crates/voya-core/src/context.rs:412-527 | registration of a group succeeds if and only if the group leads to an accepted server in the original, possibly cyclic graph; then the resolved graph leads to exactly the same servers; a failure changes nothing |
| GroupCycles.TraverseCuts | crates/voya-core/src/context.rs:440-447 | inside any traversal a cut edge witnesses a reachable cycle, and its absence shows there is none |
| GroupCycles.CutIffCycle | crates/voya-core/src/context.rs:440-447 | registration of a group takes the cycle branch if and only if some cycle lies below the group |
| GroupNotes.TraverseIsTrue | crates/voya-core/src/context.rs:428-527 | every issue of a traversal, at any depth, is true of a way down from the group; a traversal that fails has errors alone and one that succeeds warnings alone |
| GroupNotes.DroppedIsExplained | crates/voya-core/src/context.rs:440-516 | every child that is not listed is explained: it is an ancestor, a server each of whose errors is reported, or a group without a valid child |
| ContextBuild.CoreConfigContext.RegisterSingleNode | crates/voya-core/src/context/node_registration.rs:31-48 | an accepted node is stored under its id, any other leaves the map unchanged; the result holds the node's validation errors |
| ContextBuild.CoreConfigContextBuilder.TraverseGroupNode | crates/voya-core/src/context.rs:428-527 | the recursive loop leaves in the shared map, the visited set and its result what the recursive specification `Traverse` gives, and terminates because ancestors grow inside the stored ids |
| ContextBuild.CoreConfigContextBuilder.RegisterNode | crates/voya-core/src/context.rs:387-426 | dispatches between groups and single nodes as `ResolveNode` specifies |
| ContextBuild.CoreConfigContextBuilder.ResolveRuleOutbound | crates/voya-core/src/context.rs:589-628 | one rule changes map and warnings as specified: missing outbounds only warn, resolved ones add an alias entry |
| ContextBuild.CoreConfigContextBuilder.BuildContext | crates/voya-core/src/context.rs:301-334 | the whole build gives the map and result of `Build`: the active node, then every enabled rule that is not built in |
| RuleAliases.FindRemarksFirst | crates/voya-app/src/coregen.rs:64-69 | the lookup by remarks gives the first stored profile that has them, and nothing exactly when there is none |
| RuleAliases.RegistersExactly | crates/voya-core/src/context.rs:387-426 | a node can be registered if and only if it is a server without errors, a custom node, a group that leads to such a server, or has a blank id |
| RuleAliases.AliasesExactly | crates/voya-core/src/context.rs:571-628 | after a build `remark:<tag>` is a key if and only if a rule that is read asks for the tag and the first node called so can be registered; it leads to that node, whose own id is a key too |
| RuleAliases.BuildNotes | crates/voya-core/src/context.rs:301-334 | a build succeeds if and only if its active node can be registered; its warnings are those about this node and then those about each rule in turn |
| RuleAliases.IdleNotes | crates/voya-core/src/context.rs:589-604 | disabled rules and rules for proxy, direct or block say nothing, rules with a blank or unknown tag one warning each |
| RuleAliases.IdleRule | crates/voya-core/src/context.rs:589-628 | a rule that asks for nobody, or for a node that cannot be registered, leaves the whole map as it is without the rule |
| StoredOrder.TraverseOrders | crates/voya-core/src/context.rs:428-527 | every list that a traversal stores, at any depth, stands in the order in which its group offers the children first |
| StoredOrder.RegisteredInOrder | crates/voya-core/src/context.rs:412-527 | the same for the registered group and everything stored with it |
| StoredOrder.BuildInOrder | crates/voya-core/src/context.rs:301-334 | after a whole build every entry under a profile id is that profile but for its children, which stand without duplicates in the order of their first offers |
| BuildGraph.OverwriteKeepsGraph | crates/voya-core/src/context.rs:519-525 | entries overwritten by an acyclic, closed set of new ones leave the whole map acyclic and closed |
| BuildGraph.BuildKeepsGraph | crates/voya-core/src/context.rs:301-334 | after the active node and any number of rule outbounds the child graph under profile ids is acyclic and every listed child is a key |
| BuildServers.TraverseCompletes | crates/voya-core/src/context.rs:428-527 | a group that a traversal newly stores, with no cycle below it, lists every child that leads to a server; a group that fails leads to servers only through ancestors |
| BuildServers.ListedServersExact | crates/voya-core/src/context.rs:428-527 | in a map of sound entries an entry lists only servers its profile leads to, and all of them when no cycle lies below it |
| BuildServers.BuildServersExact | crates/voya-core/src/context.rs:571-628 | the same for every entry of the map a whole build leaves, whatever passes came in between |
| HiddenServer.LaterPassHidesServer | crates/voya-core/src/context.rs:571-628 | in an arrangement where a rule outbound and a group above it form a cycle, its pass leaves the active node without a server that it leads to in the original graph |
| HiddenServer.ArrangementExists | crates/voya-core/src/context.rs:571-628 | five concrete profiles form such an arrangement |
| HiddenServer.HiddenServerExample | crates/voya-core/src/context.rs:571-628 | a build for the first of them with one rule for the third leaves the first without a server that it leads to |
| PassOverlay.TraverseOver | crates/voya-core/src/context.rs:428-527 | the walk never reads the proxy map: over any earlier map it visits, reports and stores what it does over none |
| PassOverlay.PassIsOverlay | crates/voya-core/src/context.rs:387-426 | registering a node lays the entries it would store into an empty map over the earlier ones |
| PassOverlay.OverlayReaches | crates/voya-core/src/context.rs:519-525 | what an entry reaches after a pass: what it reached around the overwritten entries, and what the first overwritten entry on a walk reaches now |
| PassServers.OverlayLists | crates/voya-core/src/context.rs:519-525 | the same, if and only if, for the servers listed below an entry |
| PassServers.HarmlessPassKeeps | crates/voya-core/src/context.rs:589-628 | a pass that shares no cycle with an entry changes nothing about the servers listed below it |
| PassServers.OwnPassListsAll | crates/voya-core/src/context.rs:412-527 | a node's own successful pass lists exactly the servers it leads to, whatever was stored before |
| PassServers.HarmlessWithoutCycle | crates/voya-core/src/context.rs:589-628 | a rule is harmless when it registers nothing, or something with no cycle below it |
| PassServers.BuildListsAll | crates/voya-core/src/context.rs:301-334 | after the whole build the active node, with or without cycles below it, lists exactly the servers it leads to, unless a rule registers another group that shares a cycle with it |
| PassServers.OneRuleLosesExactly | crates/voya-core/src/context.rs:571-628 | with one rule that may share a cycle, among rules that do not, a server stays listed if and only if it was listed around that rule's entries or an entry met first lists it now |
| GroupValidation.ProfilesById | crates/voya-core/src/groups.rs:165-171 | the index maps ids to profiles that carry them and lists exactly its keys |
| GroupValidation.EffectiveChildrenExact | crates/voya-core/src/groups.rs:179-223 | an id is an effective child if and only if it is stored and listed, or a subscription member that passes; the errors added are exactly those for listed ids that are missing, and only where they are asked for |
| GroupValidation.DetectSound | crates/voya-core/src/groups.rs:241-275 | every cycle path reported is a genuine cycle of effective-child edges |
| GroupValidation.DetectComplete | crates/voya-core/src/groups.rs:241-275 | when the search adds no error, no cycle is reachable from the id it starts at |
| GroupValidation.DetectExact | crates/voya-core/src/groups.rs:241-275 | from an empty stack an error is added if and only if a cycle is reachable from the root |
| GroupValidation.ValidateReportsCycles | crates/voya-core/src/groups.rs:108-152 | the validation of a group draft reports a cycle if and only if one is reachable from the draft |
| GroupValidation.GroupCheck.PushUniqueChild | crates/voya-core/src/groups.rs:225-239 | adds a new child once, or one warning for a duplicate |
| GroupValidation.GroupCheck.CollectChildIds | crates/voya-core/src/groups.rs:179-223 | the two loops give the children and notes that the specification gives |
| GroupValidation.GroupCheck.DetectCycle | crates/voya-core/src/groups.rs:241-275 | keeps `visiting` equal to the duplicate-free stack, restores both on return, reports what the specification reports and terminates |
| GroupValidation.GroupCheck.ValidateGroupProfile | crates/voya-core/src/groups.rs:108-152 | the whole validation gives the specified children and notes, and `valid` if and only if there is no error |
| DraftIndexOrder.DraftIndexExact | crates/voya-core/src/groups.rs:121-124 | in the index the draft stands for its own id, any other id for the last stored profile that has it |
| DraftIndexOrder.DraftIndexAscends | crates/voya-core/src/groups.rs:165-171 | the keys of the index ascend strictly |
| DraftVerdict.AcceptsExactly | crates/voya-core/src/groups.rs:108-152 | a draft is accepted if and only if it is a group, has an effective child, lists only stored profiles and leads to no cycle |
| DraftVerdict.CheckDraft | crates/voya-core/src/groups.rs:108-152 | the whole check as it runs says `valid` in exactly these cases |
| DraftVerdict.ErrorsExact | crates/voya-core/src/groups.rs:117-150 | when each kind of error is reported, in terms of the draft and its index |
| DraftVerdict.WarningsExact | crates/voya-core/src/groups.rs:134-145 | a one-hop chain is noted if and only if a proxy chain has exactly one effective child, a duplicate if and only if the draft or a group that it leads to offers that child twice |
| DraftVerdict.ReturnedChildren | crates/voya-core/src/groups.rs:179-223 | the returned children are the effective ones, each once: the listed ones in listed order, then the rest of the subscription by id |
| GroupAgreement.CyclesAgree | crates/voya-core/src/groups.rs:179-223 | the graph the validator walks and the one the builder walks reach a cycle from the root alike, though they order and filter children differently |
| GroupAgreement.ValidatorAgreesWithBuilder | crates/voya-core/src/groups.rs:108-152 | over the same well-formed profiles the validator reports a cycle if and only if the builder would cut one |
| GroupAgreement.AcceptedDraftIsNeverCut | crates/voya-core/src/context.rs:440-447 | a draft that the validator accepts never reaches the cycle branch of the builder |
| GroupAgreement.NewDraftCycles | crates/voya-app/src/groups.rs:123-138 | a draft without an id, checked under a placeholder, is reported to have a cycle if and only if it is after it was saved under a new id |
| GroupAgreement.NewDraftAgreesWithBuilder | crates/voya-core/src/groups.rs:108-152 | the check of a draft without an id reports a cycle if and only if the builder would cut one for the group saved from it |
| ReaperInvariant.StepKeepsInv | crates/voya-platform/src/process.rs:248-532 | every step of every thread keeps the protocol invariant over table, channels, lock, reapers and callers |
| ReaperInvariant.NeverDisconnected | crates/voya-platform/src/process.rs:446-455 | with distinct pids among unfinished reapers no polling reaper can find its channel closed |
| ReaperInvariant.OwnEntry | crates/voya-platform/src/process.rs:520-532 | the pid of an unfinished reaper can only name its own table entry |
| ReaperRuns.RunKeepsInv | crates/voya-platform/src/process.rs:248-532 | the invariant holds in every state of every interleaving of spawns, stops, exits and the drop |
| ReaperRuns.ReapersEndOnce | crates/voya-platform/src/process.rs:432-489 | every table entry has an unfinished reaper of that pid; a reaper ends by exactly one of answering a stop and reporting an exit; its handler is called at most once |
| ReaperRuns.StopReapsChild | crates/voya-platform/src/process.rs:344-357 | when a stop that took a control returns, that child is reaped unless the system reported an error |
| ReaperAnswers.StepKeepsAnswers | crates/voya-platform/src/process.rs:394-410 | every step keeps what callers have been told about their children true |
| ReaperAnswers.StopAnswers | crates/voya-platform/src/process.rs:394-410 | a returned stop fails if and only if a reaper answered with an error, and then the system had failed on that child; answered with success its child is reaped; without an entry or with a closed channel it succeeds |
| ReaperAnswers.StopSucceedsWithoutErrors | crates/voya-platform/src/process.rs:491-500 | without errors of the system every returned stop succeeds and what it took is reaped |
| ReaperAnswers.StopEndsLaunched | crates/voya-platform/src/process.rs:344-357 | when a stop returns, every child of its pid started before it began is reaped or failed, unless another call is still at work on it |
| ConcurrentStops.SecondStopReturnsEarly | crates/voya-platform/src/process.rs:344-357 | a run in which the second of two stops returns success while the child runs |
| ReaperExits.ReportFollows | crates/voya-platform/src/process.rs:457-489 | from every state in which a child has ended by itself, or cannot be waited for, steps of its reaper and of whoever holds the lock lead to its report |
| ReaperExits.ExitIsReported | crates/voya-platform/src/process.rs:457-489 | at every point of every run there is such a continuation of at most six steps, with one call of the handler if there is one |
| ReaperRuns.DropLeavesNothingAlive | crates/voya-platform/src/process.rs:368-388 | after the drop of the runner no child ever spawned is alive, unless the system reported an error |
| ReaperRuns.HolderCanRelease | crates/voya-platform/src/process.rs:344-357 | whoever holds the lock can take a step that releases it; nobody waits for a reply while holding it |
| ReaperRuns.NoDeadlock | crates/voya-platform/src/process.rs:394-410 | as long as some call has not returned, some thread can take a step that serves a call already begun |
| ReaperRuns.RankStep | crates/voya-platform/src/process.rs:432-500 | while a stop is pending each step of its reaper brings it closer to its end and no other step takes it back |
| ReaperRuns.StopIsAnswered | crates/voya-platform/src/process.rs:394-410 | however threads interleave, a reaper with a pending stop takes at most six more steps before the caller has its answer or sees the channel closed |
| ReaperRuns.AnswerFollows | crates/voya-platform/src/process.rs:394-410 | from every state in which a stop waits, steps of its reaper and of whoever holds the lock lead to a state where it has its reply |
| ReaperRuns.WaitingStopIsAnswered | crates/voya-platform/src/process.rs:394-410 | at every point of every run a waiting stop has such a continuation, of at most thirteen steps |
| PidReuse.ForeignEntryDisconnects | crates/voya-platform/src/process.rs:446-455 | where the system only promises not to reuse the pid of a child before it is reaped, a run leads to a running child whose reaper finds its channel closed |
| SettingsProjection.ReloadGivesCanonical | crates/voya-app/src/settings_save.rs:130-401 | loading what was stored of a configuration gives it back except for `sub_index_id`, the spelling of the theme and a shortcut without a key |
| SettingsProjection.CanonicalIsStoredAlike | crates/voya-app/src/settings_save.rs:130-401 | what a reload gives is stored exactly like the original, so a second reload changes nothing |
| SettingsProjection.StoredAgainExactly | crates/voya-app/src/settings_save.rs:266-401 | storing what was loaded gives the stored records back if and only if their schema version is current and no id is spelled as an empty text |
| SettingsSpelling.ThemesExactly | crates/voya-app/src/settings_save.rs:403-417 | a theme is light or dark in any mixture of capitals of these words, and follows the system for anything else or nothing |
| SettingsSpelling.StoredSpellings | crates/voya-app/src/settings_save.rs:419-457 | the stored spellings of both modes, in both directions |
| SettingsSpelling.StoredFields | crates/voya-app/src/settings_save.rs:130-401 | which stored field holds which value of the configuration |
| ConfigMutation.StepKeepsInv | crates/voya-app/src/config_mutation.rs:73-186 | every step of any number of concurrent mutations, including failures, abandonment and crashes, keeps memory, store and working copies consistent |
| ConfigMutation.RunIsSerial | crates/voya-app/src/config_mutation.rs:73-186 | every interleaving equals its committed mutations applied one after another; whenever the lock is free the stored records are the projection of memory |
| ConfigMutation.CrashKeepsCommitted | crates/voya-app/src/services.rs:53-61 | a crash at any moment can be recovered from and gives the canonical form of the last committed configuration |
| ConfigMutation.OnlyCommitsChange | crates/voya-app/src/config_mutation.rs:146-186 | no step but a successful commit, its publication or a reload changes memory or store |
| MutationResults.StepKeepsResults | crates/voya-app/src/config_mutation.rs:73-186 | every step keeps applied mutations and tasks that took effect in one-to-one correspondence |
| MutationResults.ResultsExactly | crates/voya-app/src/config_mutation.rs:146-186 | a mutation that has returned did so with success if and only if it is among those applied since the last start, where it is once and with its own edit |
| ConfigGuard.ConfigMutationGuard.Commit | crates/voya-app/src/config_mutation.rs:146-172 | stores the working copies and then publishes them, or changes neither store nor memory |
| ConfigGuard.SideEffects.Compensate | crates/voya-app/src/settings_save.rs:542-566 | puts back everything touched; no errors means the desktop shows the original |
| ConfigGuard.SideEffects.Apply | crates/voya-app/src/settings_save.rs:510-540 | success means the desktop shows the target; failure without compensation errors means it shows the original |
| ConfigGuard.CommitWithCompensation | crates/voya-app/src/config_mutation.rs:28-40 | runs the compensation exactly when the commit fails and reports both errors; a failure leaves memory and store unchanged |
| ConfigGuard.SetProxyMode | apps/desktop/src-tauri/src/ipc/commands/sysproxy.rs:36-57 | memory, store and desktop agree on the new mode, or memory and store keep the old one and the desktop shows it unless applying a mode failed |
| ConfigGuard.SaveSettings | apps/desktop/src-tauri/src/ipc/commands/app.rs:22-58 | saving is all or nothing over memory, store and desktop, up to failed compensation |
| SystemProxy.SetsOnlyWhenMarked | crates/voya-app/src/sysproxy.rs:269-281 | a request that the marker rule rejects has no effect that could set a proxy, for every platform plan and outcome |
| SystemProxy.MarkedRequestsSet | crates/voya-app/src/sysproxy.rs:269-281 | a valid request that the marker rule accepts does set a proxy when all steps succeed, so the marker is not written for nothing |
| SystemProxy.ClearedMeansCleared | crates/voya-platform/src/sysproxy.rs:361-456 | when the service reports a forced clear, no proxy is set |
| ProxyReport.ReportedMeansDone | crates/voya-platform/src/sysproxy.rs:361-456 | an unsupported request fails without any change; any other that ends well reports the mode in force, and the desktop shows it |
| ProxyReport.CallReported | crates/voya-app/src/sysproxy.rs:77-94 | a call reports success if and only if each of its own steps went well, and then desktop and marker fit the mode in force |
| SystemProxy.ApplyConfigSafe | crates/voya-app/src/sysproxy.rs:77-94 | after each single effect of a call a set proxy is covered by the marker |
| SystemProxy.MarkerCoversProxy | crates/voya-app/src/sysproxy.rs:77-119 | after any list of calls, each possibly cut short by a crash or error at any step, a proxy set by the program implies the marker |
| SystemProxy.RecoveryLeavesNeither | crates/voya-app/src/sysproxy.rs:103-119 | a successful recovery at startup leaves neither proxy nor marker |
| ProxyOverlap.MarkingCallsMix | crates/voya-app/src/sysproxy.rs:77-94 | calls that never drop the marker and mark before they set stay safe in every mixture of their effects |
| ProxyOverlap.ClearingCallsMix | crates/voya-app/src/sysproxy.rs:77-94 | calls that never set a proxy and clear before they drop the marker stay safe in every mixture of their effects |
| ProxyOverlap.OverlappingCallsAreUnsafe | crates/voya-app/src/sysproxy.rs:77-101 | a call that can set a proxy and one that can clear it have a mixture that leaves a proxy without a marker, on every platform and whatever else runs |
| ProxyOverlap.OverlapSafeExactly | crates/voya-app/src/sysproxy.rs:77-101 | any number of overlapping calls, cut off anywhere, keep every set proxy marked if and only if they do not include both such calls |
| SystemProxy.SystemProxyManager.MarkAndApply | crates/voya-app/src/sysproxy.rs:77-94 | the code passes through exactly the effects of the specification, in order |
| SystemProxy.SystemProxyManager.ApplyConfiguration | crates/voya-app/src/sysproxy.rs:77-94 | every state the code passes through is safe |
| SystemProxy.SystemProxyManager.RestoreDirtyProxyIfNeeded | crates/voya-app/src/sysproxy.rs:103-119 | reports whether recovery was needed, and success leaves neither proxy nor marker |
| LineDiff.LcsIsUpperBound | crates/voya-core/src/golden.rs:199-207 | no common subsequence is longer than the table's number |
| LineDiff.LcsIsLongest | crates/voya-core/src/golden.rs:199-207 | the recurrence of the table gives the length of a longest common subsequence |
| LineDiff.FillTable | crates/voya-core/src/golden.rs:197-207 | every cell of the table filled from the back holds that length for its two suffixes |
| LineDiff.ScriptRebuilds | crates/voya-core/src/golden.rs:213-224 | the ' ' and '-' lines of the script are `expected`, its ' ' and '+' lines are `actual`, and its changed lines are all lines of both less twice the longest common subsequence |
| LineDiff.ScriptIsMinimal | crates/voya-core/src/golden.rs:213-224 | no other script with that property changes fewer lines |
| LineDiff.NextEdit | crates/voya-core/src/golden.rs:214-224 | the branch taken at a cell is the next edit of the script |
| LineDiff.PushDiffLine | crates/voya-core/src/golden.rs:235-242 | adds a line unless it is leading context, and counts it |
| LineDiff.WalkTable | crates/voya-core/src/golden.rs:213-230 | the walk prints the script without leading context, cut at 240 lines |
| DiffText.PrintedShowsDifference | crates/voya-core/src/golden.rs:192-242 | the printed text, read back behind its header: ' ' and '-' lines are `expected`, ' ' and '+' lines are `actual` behind the lines that both start with, with as few changes as possible; from 240 lines on the first 240 and a notice |
| DiffText.UnifiedDiff | crates/voya-core/src/golden.rs:192-233 | the composed function prints that text for every two lists of lines |
| DiffText.KeepsThenInserts | crates/voya-core/src/golden.rs:213-224 | of all shortest scripts the printed one keeps where it can and inserts before it deletes |
| Base64.DecodeEncode | crates/voya-net/src/certificates.rs:136-136 | every byte string is decoded from its padded encoding (section 4 of RFC 4648) |
| Base64.EncodeDecode | crates/voya-net/src/certificates.rs:162-164 | the strict decoder accepts nothing but encodings |
| Base64.EncodeSymbols | crates/voya-net/src/certificates.rs:136-136 | encodings consist of symbols of the standard alphabet and padding, without whitespace |
| Base64.PaddingIsShort | crates/voya-net/src/subscription.rs:249-251 | at most two padding characters close an encoding |
| EncodingTables.EncodedGroup | crates/voya-net/src/certificates.rs:136-136 | each four symbols of an encoding are the bits of three bytes in order, by the published alphabet |
| PemCertificates.PrintColumns | crates/voya-net/src/certificates.rs:135-147 | the chunk loop prints the lines of at most 64 columns between the markers |
| PemCertificates.PrintCertificate | crates/voya-net/src/certificates.rs:135-147 | prints the block of one certificate |
| PemCertificates.BodyDecodes | crates/voya-net/src/certificates.rs:158-164 | what stands between the markers of a printed certificate decodes to it, and has no dash |
| PemCertificates.MarkedRoundTrip | crates/voya-net/src/certificates.rs:153-167 | a marked body is read after any text without dashes and before any text |
| PemCertificates.ReadPemChain | crates/voya-net/src/certificates.rs:149-170 | the loop gives the certificates or the error of the recursive specification |
| PemCertificates.PemRoundTrip | crates/voya-net/src/certificates.rs:127-170 | every list of certificates is read back from its concatenated printed form |
| PemReading.ParsedExactly | crates/voya-net/src/certificates.rs:149-170 | for any text whatsoever, which certificates are read from it, and that it is refused in all other cases |
| PemReading.ColumnsAt | crates/voya-net/src/certificates.rs:140-143 | printed lines are 64 characters wide, the last one excepted |
| PemBlocks.RoundAt | crates/voya-core/src/protocol_common.rs:47-62 | the absolute indices of the loop cut the same block out of the whole text |
| PemBlocks.CutNext | crates/voya-core/src/protocol_common.rs:47-63 | one round gives the specified block, end or panic, and moves the index on |
| PemBlocks.CutBlocks | crates/voya-core/src/protocol_common.rs:40-66 | the index loop gives the blocks, or the panic, of the recursive specification |
| PemBlocks.NormalizedExactly | crates/voya-core/src/protocol_common.rs:41-41 | no carriage return is left, and a text comes out unchanged if and only if it has none |
| PemBlockReading.LineEndsNormalized | crates/voya-core/src/protocol_common.rs:41-41 | every line end of any kind becomes one line feed, and nothing else changes |
| PemBlocks.MarkersAreCertificate | crates/voya-core/src/protocol_common.rs:42-43 | the program's markers have every property that the proofs use |
| PemBlocks.OverlapExact | crates/voya-core/src/protocol_common.rs:56-57 | a round slices backwards if and only if an END marker shares the dashes that close its BEGIN marker |
| PemBlocks.PanicsExactly | crates/voya-core/src/protocol_common.rs:40-66 | the parser does not panic if and only if none of the BEGIN markers it stops at shares its dashes |
| PemBlocks.SeparateMarkersParse | crates/voya-core/src/protocol_common.rs:40-66 | it is enough that no BEGIN marker anywhere shares its dashes |
| PemBlocks.SharedDashesExample | crates/voya-core/src/protocol_common.rs:56-57 | a concrete text on which it panics |
| PemBlocks.RenderedRoundTrip | crates/voya-core/src/protocol_common.rs:40-66 | for every list of whitespace-free bodies, parsing their rendered blocks gives exactly those blocks |
| PemBlocks.ParseIsFixpoint | crates/voya-core/src/protocol_common.rs:40-66 | parsing what any text was parsed into, joined again, changes nothing |
| PemBlockReading.BlocksExactly | crates/voya-core/src/protocol_common.rs:40-66 | for any text whatsoever, which blocks are cut out of it, and that it panics in all other cases |
| PemBlockReading.BlockText | crates/voya-core/src/protocol_common.rs:62-62 | the text of one block, written out |
| Utf8.DecodeEncode | crates/voya-net/src/subscription.rs:254-254 | every text is decoded from its bytes (section 3 of RFC 3629) |
| Utf8.EncodeDecode | crates/voya-net/src/subscription.rs:254-254 | only the bytes of a text are accepted: no overlong forms, surrogates or larger values |
| EncodingTables.CharacterBits | crates/voya-net/src/subscription.rs:254-254 | the length of a character's encoding by its value, and the bits of the value in it |
| Subscription.DecodeBase64Payload | crates/voya-net/src/subscription.rs:234-261 | a result is never blank and is the trimmed text that the input carries; every text that the input carries comes out trimmed, or gives nothing when it is blank |
| Text.TrimExact | crates/voya-net/src/subscription.rs:255-255 | trimming cuts whitespace off both ends, all of it and nothing else |
| Subscription.CarriedTextIsDecoded | crates/voya-net/src/subscription.rs:234-261 | a text spelled in either base64 alphabet, with any of the closing padding left out and whitespace anywhere, comes out trimmed, unless it is blank |
| Subscription.PayloadExact | crates/voya-net/src/subscription.rs:234-261 | the decoder gives a text if and only if the input is such a spelling of a text that trims to it and is not blank |
| EncodingTables.UrlSafeSymbols | crates/voya-net/src/subscription.rs:248-248 | the two URL-safe symbols stand for the symbols of the same value |
| ShellQuoting.EscapeOne | crates/voya-platform/src/autostart.rs:446-452 | escaping `&` first keeps the four replacements apart: each character becomes its own entity |
| ShellQuoting.XmlRoundTrip | crates/voya-platform/src/autostart.rs:446-452 | resolving the predefined entities undoes the escaping of every text (section 4.6 of XML 1.0) |
| ShellQuoting.SingleQuoteRoundTrip | crates/voya-platform/src/autostart.rs:458-460 | a POSIX shell reads every single-quoted text back as one word |
| ShellQuoting.ShellQuotedXmlRoundTrip | crates/voya-platform/src/autostart.rs:454-456 | both layers undone give back every text |
| ShellQuoting.QuoteShellArgRoundTrip | crates/voya-platform/src/elevation.rs:243-255 | a POSIX shell reads every quoted argument back, bare and empty ones included |
| ShellQuoting.BareExactly | crates/voya-platform/src/elevation.rs:243-255 | exactly the texts of ASCII letters, digits and `_-./:` are printed as they are |
| CommandLine.SplitLine | crates/voya-platform/src/process.rs:608-670 | the character loop gives the arguments or the error of the fold over its state |
| CommandGrammar.MeaningRead | crates/voya-platform/src/process.rs:608-670 | every line made of blanks, plain and escaped characters and quoted stretches is split into the arguments it stands for, or reports the quote left open |
| CommandGrammar.SplitExactly | crates/voya-platform/src/process.rs:608-670 | every line is made of these, and stands for one result, which the splitter gives |
| CommandLine.PrintedRoundTrip | crates/voya-platform/src/process.rs:608-670 | arguments without backslashes, empty ones included, quoted and joined by blanks, are split back into themselves |
| CommandLine.FallsBehind | crates/voya-platform/src/process.rs:623-627 | from its first backslash on the splitter cannot read a quoted argument back |
| CommandLine.PrintedExactly | crates/voya-platform/src/elevation.rs:243-255 | printed arguments are split back into themselves if and only if none has a backslash |
| CommandLine.QuotedPathExactly | crates/voya-platform/src/coreinfo.rs:605-612 | a quoted path is read as that one argument if and only if it is not empty and has neither a double quote nor a backslash |
| Redaction.FindSchemeStart | crates/voya-app/src/redaction.rs:58-64 | the backward loop finds the start of the longest run of scheme bytes |
| Redaction.NextSpan | crates/voya-app/src/redaction.rs:13-40 | one round gives the span to mask and where to go on; its slices lie on character boundaries |
| Redaction.Rewrite | crates/voya-app/src/redaction.rs:6-48 | the index loop copies everything outside the spans in order and puts the mask in their place |
| Redaction.RedactUrlUserinfo | crates/voya-app/src/redaction.rs:6-48 | the whole function refines the recursive specification on every UTF-8 text without a bad slice |
| Redaction.SpansOrdered | crates/voya-app/src/redaction.rs:35-39 | the masked spans are inside the text, disjoint and increasing |
| Redaction.UrlMeans | crates/voya-app/src/redaction.rs:58-77 | a URL is recognised if and only if the longest run of scheme bytes before `://` is not empty and starts with a letter |
| Redaction.SpanMeans | crates/voya-app/src/redaction.rs:20-33 | what is masked behind a URL is exactly its non-empty userinfo up to the first `@` of the authority (section 3.2.1 of RFC 3986) |
| Redaction.RedactedExactly | crates/voya-app/src/redaction.rs:13-40 | a span is masked if and only if it is the userinfo of a URL whose `:` does not end the authority of another URL the search stops at |
| Redaction.SeparateUrlsRedacted | crates/voya-app/src/redaction.rs:13-40 | if no URL's authority ends in the `:` of another URL, exactly the userinfos of URLs are masked |
| Redaction.UnchangedExactly | crates/voya-app/src/redaction.rs:42-47 | the line comes back unchanged if and only if nothing is masked |
| Redaction.RedactedIsText | crates/voya-app/src/redaction.rs:35-43 | every slice bound is a character boundary and the result is valid UTF-8 again |
| RedactionText.RedactedIsWoven | crates/voya-app/src/redaction.rs:35-47 | the redacted line is the line with a mask for every masked userinfo, and every other stretch of it in place |
| RedactionText.ByteClasses | crates/voya-app/src/redaction.rs:75-108 | which bytes end an authority and which belong to a scheme, as characters |
| RedactionText.SeparatorAndMask | crates/voya-app/src/redaction.rs:35-36 | the separator and the mask, as text |
| Redaction.SwallowedExample | crates/voya-app/src/redaction.rs:26-33 | a concrete line whose second URL keeps its userinfo |
| Backoff.WebSocketReconnectBackoff.NextDelay | crates/voya-app/src/proxy_runtime.rs:406-415 | gives the delay of the current attempt and counts it, saturating |
| Backoff.BaseExact | crates/voya-app/src/proxy_runtime.rs:424-426 | over any number of failures the saturating base is the exact minimum of the limit and the initial delay times two to the failures, at most sixteen |
| Backoff.BaseGrows | crates/voya-app/src/proxy_runtime.rs:418-429 | one more failure never shortens the base and at most doubles it |
| Backoff.DelayBounds | crates/voya-app/src/proxy_runtime.rs:418-440 | whatever the seed, a delay lies between the base and a quarter more |
| Backoff.DelayBoundsTight | crates/voya-app/src/statistics.rs:544-566 | both bounds are reached, as far as durations and 64-bit seeds go |
| Backoff.JitterExact | crates/voya-app/src/proxy_runtime.rs:431-440 | the jitter is what whole turns, one longer than a quarter of the base, leave of the seed |
| Backoff.DelaysOverFailures | crates/voya-app/src/statistics.rs:519-566 | a later delay is never below an earlier base nor above five quarters of the limit |
| Backoff.MonitorDelays | crates/voya-app/src/proxy_runtime.rs:316-373 | in the monitor loop every event restarts the backoff: each delay lies between the base for the failures since the last event and a quarter more |

## Left out

- BuildServersExact: one direction needs that no cycle lies below the entry; for the active node `BuildListsAll` and `OneRuleLosesExactly` say more. With several rules that share cycles the loss is given pass by pass (`OverlayLists`), not by one condition on the profiles.
- ValidatorAgreesWithBuilder: the draft is among the profiles, as it is when the validator runs, and its id has no blanks around it; ids that differ only by blanks are different keys on one side. `NewDraftAgreesWithBuilder` covers a draft without an id.
- AcceptedDraftIsNeverCut: like `ValidatorAgreesWithBuilder`.
- WaitingStopIsAnswered: the reply can always be reached and `StopIsAnswered` bounds the reaper's steps; that a thread which can step eventually does is left to the scheduler.
- ExitIsReported: like `WaitingStopIsAnswered`, it says what the threads can do, not what the scheduler will.
- AliasesExactly: the active node is stored, and no profile id begins with `remark:`, as a rule alias does; the other lemmas over whole builds assume the same where they say so.
- PrintedShowsDifference: the lines have no line feeds in them, as the lines of a text.
- ReloadGivesCanonical: fields that both settings mappings copy by name are one map, so which field is paired with which is not covered.
- SaveSettings: adapters may leave anything behind when they fail; a failed compensation is reported, not repaired. What follows the commit (restart of the core, applying the proxy) is not part of the model.
- MarkerCoversProxy: calls run one after another; `OverlapSafeExactly` is about calls that overlap. Scripts are arbitrary effects that do not touch the marker, do not set a proxy when asked to clear, and leave the asked mode when they succeed.
- NeverDisconnected: pids of unfinished reapers differ (the guard `FreshPid`); `ForeignEntryDisconnects` shows why.
- DelaysOverFailures: the delay code is the same text in `proxy_runtime.rs` and `statistics.rs`, so it is modelled once and cited from both; the seed, made of clock and process id, is a parameter.
- Unique profile ids come from the database's primary key and are an assumption where a lemma states them.
- The text of errors and warnings is kept as structured values, so that wording and joining are not modelled; filters are an arbitrary predicate on remarks, without regular expressions.
- Field checks of a node (`validate_node`) are a given list of errors per profile; protect-domain lists, pre-socks contexts and DNS items of a context are not part of the model.
- Process output pipes, the stdin-writing path of `spawn`, poisoned locks and exit handlers that do not return are not part of the process model.
- Cancellation between commit and publication of a mutation, and the SQL inside the unit of work, are not modelled.
- The PAC server and the content of proxy exceptions are not part of the proxy model.
- Splitting a text into lines before the diff, JSON canonicalisation and pointer removal of the golden harness are not modelled.
- Double-quoted words, expansions and operators of the shell, and XML beyond predefined entities, are not read by the two readers of `ShellQuoting`; no printer produces them.
- `SupervisorActor`, speed tests, the sing-box generator, share links, repositories, HTTP and WebSocket clients, hotkey tables, path joins, autostart plans, the Tauri shell and the front end are not modelled.
