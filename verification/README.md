# Moment xray agent: a verified model

The agent keeps an embedded xray-core in step with a control server. This project models its five
connected pieces and two smaller ones, and proves what they promise each other:

- **Hot user sync** (`UserSync`, `HotSync`): a change of users is applied to the running instance
  as a minimal set of removals and additions. It is proved to leave exactly the users that a restart
  on the same config would, never to disturb a user that does not change, and never to be refused by
  an instance that is in step with the agent's index.
- **current, last_good and the running instance** (`Machine`, `RuntimeSafety`, `Runtime`,
  `Counterexamples`): a state machine in which every file operation, instance start and user-manager
  call may fail. For every outcome of Apply and Start it is said exactly which failures lead to it.
  What Apply writes to last_good is live at that moment; what a hot sync writes is so exactly if the
  instance was what the sync took it for.
- **The config renderer** (`Render`, `RenderProofs`, `RenderedConfig`): three rewrites of a JSON
  document. A later rendering absorbs an earlier one, rendering twice changes nothing, the stats API
  is wired in exactly once, and the rendered users can be read back. `RenderedConfig` says by field
  names what xray-core gets, and exactly which documents can be rendered.
- **Traffic accounting** (`StatNames`, `Traffic`, `Billing`): growing counters become reported
  increases through a two-phase cursor. The server never bills more than flowed, whatever fails, and
  what is lost is bounded.
- **The agent loop** (`Agent`, `AgentProofs`, `Startup`, `Delivery`, `Reports`,
  `AgentCounterexamples`, `AgentObject`, `Wakeup`): pulls that roll back and exactly when they
  succeed, the users snapshot, exactly when something runs after the start-up, which pulls part what
  runs from what is in force, exactly when a reported config is the one that runs, and the channel
  through which change events wake the loop.
- **The event stream** (`Frames`) and **the online-user window** (`OnlineUsers`).

## How to read it

Objects that the Go code updates in place are classes (`Runtime.Runtime`, `Runtime.Instance`,
`AgentObject.App`, `Traffic.StatsCollector`, `Billing.TrafficReporter`,
`OnlineUsers.OnlineUserTracker`); loops are loops. Each method is proved against a specification on
values, and what the source promises is proved about that specification as lemmas over every input
and every run.

Failure is an oracle: a function from a question counter to yes or no, asked once per fallible
attempt, so that a statement for all oracles covers all patterns of failure. A user sync that fails
after it began to change the instance marks the machine `dirty`; a successful restart clears it.
Properties of the index are claimed for clean machines, and `DirtySyncCanMisreport` shows why.

The hypotheses that statements carry openly: the two config paths differ and are set; tags of
managed inbounds and emails within one are unique in a config that is started or synced; subscription
ids in a user list are distinct; stat names are unique in one reply and show the counters as they
are; counters and cursors are not negative; a file write replaces the whole file or nothing; a
refused traffic report counted nothing. Runs start from any state that meets the invariant in
question; a new process over any files does.

Two things are asked of the agent over its runs. The first is about frames: the frame of a config is
what is left when the lists of its managed inbounds are emptied, so neither users nor client templates
belong to it. The state is `Settled` when the running instance is clean and both it and the two files
have the frame of the body in force. From any state, `SettledExactly` says which steps end settled:
two kinds of pull part the frames, a failing config pull that leaves its config in the current file
(`Strands`) and a users pull whose sync breaks off and whose full apply then fails and keeps that
instance (`Soils`); and `Mends` lists what brings them together. Deliveries of users rest on this.

The second is about reports: `Truly` says that a body reported as applied runs, clean, with the users
in force, client templates and all. Exactly one kind of step makes it untrue (`TrulyStep`): a restart,
on the version in force or after a failed first pull, from a file that is no rendering of the body in
force (`Misleads`); and exactly the steps of `Renews` make it true again. `AgentCounterexamples` has
runs for each, one of them with all frames together.

Where the code and its documentation part ways, the model follows the code:

- The README of the agent says a failed change keeps the old config running. `KeepsOld` is the exact
  list of failures that do: those before the restart, and a config that cannot be built while
  last_good cannot be read or built either. After any other failure what runs is the new config (if
  only the last_good write failed), last_good, or nothing (`ApplyOutcome`);
  `FailedStartCanLoseEverything` is a run that ends with nothing.
- A sync can report success while a user is missing, if an earlier sync had failed half-way and no
  restart came in between (`SyncTellsTheTruthExactly`, `UsersPullCanMissUsers`). It can also write a
  config to last_good that never ran (`LastGoodStep`, `LastGoodCanBeOneThatNeverRan`).
- The agent can report a version as applied while another one runs, because a version that did not
  change is restarted from whatever lies in the current file. `AppliedMeansInForce` says exactly in
  which runs; `AppliedCanBeAnotherVersion` and `AppliedCanBeAnotherTemplate` are two of them.
- A user list whose snapshot cannot be written stays in force under the old version
  (`UsersPullOutcome`, `UsersAlwaysKnown`).

## Model

| member | source | states |
|---|---|---|
| `UserSync.ExtractTable` | internal/xray/user_sync.go:71-85 | one inbound's users by email: fails on a nil user, an empty email or a user that does not encode; a later duplicate wins |
| `UserSync.ExtractDynamicInboundUsers` | internal/xray/user_sync.go:50-89 | the loop over inbounds computes the specified index, and fails exactly where that has no value |
| `UserSync.IndexExactly` | internal/xray/user_sync.go:58-88 | a tag is indexed iff some inbound with users carries it, with that inbound's table; supported iff there is such an inbound |
| `UserSync.IndexExists` | internal/xray/user_sync.go:50-88 | a config has an index iff every inbound builds, every inbound with users has a tag, and none of its users is nil, unnamed or without encoding |
| `UserSync.TableExactly` | internal/xray/user_sync.go:71-85 | an email is in the table iff some listed user has it, with the last such user under its own encoding |
| `UserSync.TableExists` | internal/xray/user_sync.go:71-85 | a list of users has a table iff none is nil, has an empty email or does not encode |
| `UserSync.FreshInstanceMatchesIndex` | internal/xray/user_sync.go:50-89 | for unique tags and emails, the index read from a config is what a fresh instance of it serves, at every tag and email |
| `UserSync.ExtractedIsConsistent` | internal/xray/user_sync.go:76-84 | every entry sits under its own email and is fingerprinted by its user's encoding |
| `Order.SortedKeys` | internal/xray/user_sync.go:218-234 | the keys of a map in strictly ascending order, each once |
| `Order.LessExactly` | internal/xray/user_sync.go:218-234 | that order is the one of Go strings: at the first difference the smaller character, or the shorter text |
| `UserSync.ChangedSlots` | internal/xray/user_sync.go:127-137 | exactly the (tag, email) slots that the other side lacks or has differently, strictly ascending |
| `UserSync.DiffDynamicInboundUsers` | internal/xray/user_sync.go:125-150 | removals and additions are exactly what must go and come, ordered, listed once, additions with the target's user |
| `UserSync.EmptyDiffMeansSameUsers` | internal/xray/user_sync.go:152-154 | nothing to do iff both indexes hold the same users (empty tags may differ) |
| `UserSync.DiffConserves` | internal/xray/user_sync.go:125-150 | users before, less removals, plus additions, are users after |
| `UserSync.Plan` | internal/xray/user_sync.go:161-182 | all removals come before all additions, each list in its order |
| `UserSync.PerformAccepts` | internal/xray/user_sync.go:166-181 | a user manager removes exactly users it has and adds exactly under emails it does not have |
| `UserSync.PlanEffect` | internal/xray/user_sync.go:156-184 | after any accepted prefix of the changes, every slot holds its target, nothing, or what it held |
| `UserSync.DiffNeverRefused` | internal/xray/user_sync.go:161-182 | from an instance in step with the index, every removal finds its user and every addition a free email, after any prefix |
| `UserSync.UnchangedUsersUndisturbed` | internal/xray/user_sync.go:125-182 | after any prefix each slot is current, empty or target, and a user equal on both sides stays in place throughout |
| `UserSync.SyncReachesTargetExactly` | internal/xray/user_sync.go:156-184 | a fully accepted diff ends at the target iff the instance agreed with the index on every slot the diff leaves alone |
| `Machine.WriteFile` | internal/xray/runtime.go:275-303 | an atomic write puts the data at that path or changes nothing; other files keep their content |
| `Machine.ReadConfig` | internal/xray/runtime.go:261-273 | reading changes nothing and gives the file's content, never an empty one |
| `Machine.Reached` | internal/xray/user_sync.go:161-182 | the number of changes that go through is a prefix that the instance accepted |
| `Machine.RestartMirrors` | internal/xray/runtime.go:175-199 | a restart keeps the index equal to what the instance serves, and success runs exactly the given config |
| `Machine.FallBackMirrors` | internal/xray/runtime.go:209-229 | so does falling back to last_good |
| `Machine.ApplyMirrors` | internal/xray/runtime.go:31-57 | so does Apply, however it ends |
| `Machine.StartMirrors` | internal/xray/runtime.go:103-127 | so does Start, however it ends |
| `Machine.SyncSuccess` | internal/xray/runtime.go:59-101 | a successful sync of a clean machine leaves the instance at the new index, still clean, on the config it was started from |
| `Machine.SyncMirrors` | internal/xray/runtime.go:59-101 | a sync, failed or not, leaves the index right or the machine marked dirty |
| `Machine.StepMirrors` | internal/xray/runtime.go:31-139 | every operation, stop and crash keeps: running, clean and syncable implies index equals instance |
| `Machine.RunMirrors` | internal/xray/runtime.go:31-139 | hence so does every run with every pattern of failures |
| `RuntimeSafety.RestartOutcome` | internal/xray/runtime.go:175-190 | exactly when a restart succeeds; a failed one keeps the instance if the new one cannot be built and loses it if that does not start |
| `RuntimeSafety.InstallOutcome` | internal/xray/runtime.go:43-51 | running a config with last_good to fall back to: the config, last_good, the old instance or nothing, each exactly when said; last_good is never written and returns to the current file exactly when it runs and that write works |
| `RuntimeSafety.ApplyOutcome` | internal/xray/runtime.go:31-57 | exactly when Apply succeeds, with instance, files and index the argument's; a failure leaves last_good alone and keeps the old instance exactly under KeepsOld, else the argument, last_good or nothing runs, each exactly when said; what the current file holds |
| `RuntimeSafety.AppliedConfigBuilds` | internal/xray/runtime.go:31-57 | a config that was applied decodes to inbounds that all build, with no tag twice among those with users |
| `RuntimeSafety.SharedPathLosesLastGood` | internal/xray/runtime.go:40-47 | with one path for both files a failing Apply overwrites last_good |
| `RuntimeSafety.FallBackOutcome` | internal/xray/runtime.go:209-229 | exactly when falling back runs last_good and makes it current, runs it only, loses the instance, or changes nothing; last_good is never written |
| `RuntimeSafety.StartOutcome` | internal/xray/runtime.go:103-127 | exactly when Start succeeds; what runs afterwards is the first readable file's config, last_good, the old instance or nothing, each exactly when said, with the index of what runs; what the files hold |
| `RuntimeSafety.SyncRefinesRestart` | internal/xray/runtime.go:59-101 | a successful sync leaves the instance that a restart on the same config would: same frame, same users at every slot |
| `RuntimeSafety.SyncRefuses` | internal/xray/runtime.go:59-78 | a sync reports failure and changes nothing at all when the config is empty, does not decode, has an inbound that does not build, a managed one without a tag or a user that is nil, unnamed or without encoding, or has no managed inbound, or when nothing runs or the index is unsupported |
| `RuntimeSafety.SyncableExactly` | internal/xray/runtime.go:59-78 | and these are all its reasons to refuse |
| `RuntimeSafety.SyncSucceedsExactly` | internal/xray/runtime.go:59-101 | a sync succeeds iff nothing makes it refuse, every change is accepted by the instance with every call working, and both writes work |
| `RuntimeSafety.SyncOutcome` | internal/xray/runtime.go:79-99 | what a sync leaves in files, index and mark: a success has the config in both files; a failure keeps last_good and the index, and has the config in the current file iff only the second write failed |
| `RuntimeSafety.SyncTellsTheTruthExactly` | internal/xray/runtime.go:79-99 | from any state, a sync that reports success has the right users iff instance and index agreed on the slots it left alone |
| `RuntimeSafety.SyncRefinesRestartExactly` | internal/xray/runtime.go:79-99 | from any state, a sync that reports success leaves the instance as a restart would iff also the running frame was that of the config |
| `RuntimeSafety.SyncProgress` | internal/xray/user_sync.go:156-184 | whatever fails, the instance ends with some prefix of the changes applied |
| `RuntimeSafety.SyncSparesUnchangedUsers` | internal/xray/runtime.go:79-99 | however a sync ends, users that do not change are still served |
| `RuntimeSafety.SyncNeverRefused` | internal/xray/runtime.go:59-101 | without outside failures a clean running instance accepts every sync whose new users have their inbound |
| `Counterexamples.FailedStartCanLoseEverything` | internal/xray/runtime.go:40-47 | a run from nothing, for any two configs that can be built: the second passes validation, does not start, and nothing runs any more |
| `Counterexamples.DirtySyncCanMisreport` | internal/xray/runtime.go:79-92 | a run from nothing: a config is applied, a sync fails half-way, and the sync back reports success while a user is not served |
| `Counterexamples.LastGoodCanBeOneThatNeverRan` | internal/xray/runtime.go:52-54 | a run from nothing, for any two configs: only the last_good write of an Apply fails, a sync to the other config succeeds, and last_good holds one that never ran |
| `RuntimeSafety.LastGoodStep` | internal/xray/runtime.go:31-101 | only a successful Apply or sync writes last_good; what Apply writes is live at its end, what a sync writes is live iff the sync was not blind |
| `RuntimeSafety.SoundMeansNotBlind` | internal/xray/runtime.go:59-101 | in a reachable state no sync is blind on a clean instance of the same frame |
| `RuntimeSafety.LastGoodIsSafe` | internal/xray/runtime.go:31-127 | over every run, last_good has its first content or one that some step wrote with the instance running as exactly that config, unless that step was a blind sync |
| `Runtime.Instance.RemoveUser` | internal/xray/user_sync.go:166-168 | removes a user that is there, refuses otherwise |
| `Runtime.Instance.AddUser` | internal/xray/user_sync.go:179-181 | adds a user whose email is free, refuses otherwise |
| `Runtime.Runtime.WriteFileAtomic` | internal/xray/runtime.go:275-303 | the object's write is the specified one |
| `Runtime.Runtime.ReadRuntimeConfig` | internal/xray/runtime.go:261-273 | the object's read is the specified one |
| `Runtime.Runtime.NewInstance` | internal/xray/runtime.go:231-249 | builds an instance with the tables of the config, or nothing |
| `Runtime.Runtime.RememberDynamicUsers` | internal/xray/runtime.go:192-199 | the index becomes that of the config, or empty and unsupported |
| `Runtime.Runtime.Restart` | internal/xray/runtime.go:175-190 | new instance first, old one stopped before the start, index taken on success |
| `Runtime.Runtime.FallBack` | internal/xray/runtime.go:209-229 | start last_good, then copy it over current |
| `Runtime.Runtime.Apply` | internal/xray/runtime.go:31-57 | the object's Apply is the specified transition, result included |
| `Runtime.Runtime.Start` | internal/xray/runtime.go:103-127 | the object's Start is the specified transition |
| `Runtime.Runtime.Stop` | internal/xray/runtime.go:129-133 | afterwards nothing runs and nothing else changed |
| `Runtime.Runtime.ApplyUserChanges` | internal/xray/user_sync.go:156-184 | changes the instance one user at a time and stops at the first refusal or failure, as specified |
| `Runtime.Runtime.SyncUsers` | internal/xray/runtime.go:59-101 | the object's sync computes the diff and is the specified transition |
| `HotSync.RenderingsShareFrame` | internal/app/xray_runtime.go:25-64 | two renderings of one config with different users have the same part that is not users |
| `RenderProofs.RendersForAll` | internal/app/xray_runtime.go:25-64 | whether a config renders does not depend on the users |
| `HotSync.HotSyncRefinesRestart` | internal/app/app.go:376-406 | rendering with other users and syncing gives, at every tag, the users of a fresh start on that rendering |
| `Render.ActiveUsersExactly` | internal/app/xray_runtime.go:242-254 | a user is active iff it is listed, enabled, has both credentials and is not expired |
| `Render.SelectActiveUsers` | internal/app/xray_runtime.go:242-254 | the filtering loop yields exactly the active users in order |
| `Render.InjectList` | internal/app/xray_runtime.go:277-289 | the loop builds the list of rendered users; RenderedCredentials says what is in them |
| `Render.InjectInboundUsers` | internal/app/xray_runtime.go:256-342 | five protocols get their list, others pass, a malformed inbound or settings is an error |
| `Render.InjectRuntimeUsers` | internal/app/xray_runtime.go:37-64 | every inbound is injected in order or the whole rendering fails; no inbounds, no change |
| `Render.EnsureApiInbound` | internal/app/xray_runtime.go:138-163 | the first API inbound is replaced, later ones dropped, a missing one appended |
| `Render.EnsureApiRouting` | internal/app/xray_runtime.go:165-182 | our rule first, then all rules that do not route the API |
| `Render.InjectRuntimeApi` | internal/app/xray_runtime.go:97-118 | the five sections are rewritten as specified; a bad port or a document that is no object is an error |
| `Render.RenderEffectiveConfig` | internal/app/xray_runtime.go:25-35 | the three stages in order, failing when one fails |
| `RenderedConfig.RenderedCredentials` | internal/app/xray_runtime.go:256-322 | every inbound of the rendered config, by the name of its protocol: vless and vmess have in settings.clients, for each active user in order, email "u_" + id and id = uuid; trojan has password there; shadowsocks has password and hysteria auth in settings.users; every other field of an entry is the template's, every other field of inbound and settings as before; other protocols are unchanged |
| `RenderedConfig.ActiveExactly` | internal/app/xray_runtime.go:242-254 | active is who is listed, enabled, has a non-blank uuid and password, and expires never or later than now, milliseconds against nanoseconds |
| `RenderedConfig.ProtocolByName` | internal/app/xray_runtime.go:256-270 | an inbound has one of the five protocols iff its protocol reads as that name, case and spaces aside |
| `RenderedConfig.RendersExactly` | internal/app/xray_runtime.go:25-118 | a config renders iff it is an object, its inbounds are null or a list of objects whose settings, where users go, are objects, a wanted API has a port from 1 to 65535, and a log section to be written to is an object |
| `RenderedConfig.PortExactly` | internal/app/xray_runtime.go:101-104 | a text is the port iff it is the digits of a number from 1 to 65535, a plus sign and spaces around aside; no other text has one |
| `RenderedConfig.RenderedApi` | internal/app/xray_runtime.go:97-182 | the rendered config has the api section with its three services, a stats object, the six counters of the policy on, exactly one inbound tagged "api", listening on 127.0.0.1 at the port, and as its first and only API rule the one from inbound "api" to outbound "api" |
| `RenderedConfig.ApiNamesExactly` | internal/app/xray_runtime.go:184-209 | an inbound is the API's iff its tag is "api"; a rule routes the API iff its outbound tag is "api" or its inbound tags contain it |
| `RenderedConfig.RenderedLog` | internal/app/xray_runtime.go:66-95 | access path, error path and level are written where given and kept where not, every other field of the log section is kept, and with none of the three given the section is the original one |
| `RenderedConfig.LevelExactly` | internal/app/xray_runtime.go:231-240 | the level written is debug, info, error or none if it reads so, else warning |
| `RenderedConfig.OtherSectionsKept` | internal/app/xray_runtime.go:25-118 | every other section of the config is kept, and without the API all but inbounds and log are |
| `RenderProofs.ListAbsorbs` | internal/app/xray_runtime.go:272-322 | a list rendered from a rendered list equals the one from the first template iff that template was not lost or had nothing of its own |
| `RenderProofs.InboundAbsorbs` | internal/app/xray_runtime.go:256-342 | the same for one inbound, and success does not depend on the users |
| `RenderProofs.InjectionAbsorbsExactly` | internal/app/xray_runtime.go:37-64 | injecting new users over old ones equals injecting them alone iff some user was active before, none is now, or no inbound has a template to lose |
| `RenderProofs.RenderingInjectsIntoWired` | internal/app/xray_runtime.go:25-35 | rendering is injecting the users into the config with its API and log wired in |
| `RenderProofs.RenderingAbsorbsExactly` | internal/app/xray_runtime.go:25-35 | the whole pipeline forgets an earlier rendering with other users iff some user was active before, none is now, or no inbound that the API stage leaves had a template to lose |
| `RenderProofs.RenderingIsIdempotent` | internal/app/xray_runtime.go:25-35 | rendering the rendered config with the same users succeeds and changes nothing |
| `RenderProofs.OneApiInbound` | internal/app/xray_runtime.go:138-163 | exactly one API inbound comes out and all others in their order |
| `RenderProofs.OneApiRule` | internal/app/xray_runtime.go:165-209 | the API rule is first and the only one; all others keep their order |
| `RenderProofs.ApiWiredExactlyOnce` | internal/app/xray_runtime.go:97-182 | both of these for the config that leaves the API stage |
| `RenderProofs.RenderedConfigHasOneApi` | internal/app/xray_runtime.go:25-35 | both of these for the rendered config, with the active users in the other inbounds |
| `RenderProofs.ApiStageIsDone` | internal/app/xray_runtime.go:97-118 | after the API stage nothing is left for it to do |
| `RenderProofs.PolicyCountsTraffic` | internal/app/xray_runtime.go:120-136 | whatever the policy was, the six traffic counters are on and every other key is kept, at the top, in the other levels, inside level 0 and inside system |
| `RenderProofs.PolicyAgain` | internal/app/xray_runtime.go:120-136 | ensuring the policy twice is ensuring it once |
| `RenderProofs.LogAgain` | internal/app/xray_runtime.go:66-95 | the log stage twice is the log stage once |
| `RenderProofs.UsersMeetApi` | internal/app/xray_runtime.go:25-35 | injecting users and wiring the API commute |
| `RenderProofs.UsersMeetLog` | internal/app/xray_runtime.go:25-35 | injecting users and setting the log commute |
| `RenderProofs.ApiMeetsLog` | internal/app/xray_runtime.go:25-35 | the log stage does not undo the API stage |
| `RenderProofs.FrameIgnoresUsers` | internal/app/xray_runtime.go:37-64 | a rendering with its user lists emptied is the rendering for no users |
| `RenderProofs.UsersReadBack` | internal/app/xray_runtime.go:272-322 | for distinct positive ids, looking an email up in the list gives that user's entry, and nothing for anyone else |
| `RenderProofs.RenderedUsersAreTheActiveOnes` | internal/app/xray_runtime.go:37-64 | in every managed inbound of the injected config the list read by email is exactly the active users |
| `RenderProofs.RenderedConfigServesActiveUsers` | internal/app/xray_runtime.go:25-64 | the same for the rendered config |
| `RenderProofs.WiredKeepsInbounds` | internal/app/xray_runtime.go:138-163 | whose inbounds are those of the original, but for the API inbounds |
| `RenderProofs.WiredInPlace` | internal/app/xray_runtime.go:138-163 | the API inbound stands where the first one of the original stood, or last if there was none |
| `RenderProofs.OtherInboundsUntouched` | internal/app/xray_runtime.go:267-269 | inbounds of other protocols come through unchanged |
| `StatNames.EmailRoundTrip` | internal/xray/stats.go:230-246 | the email of an id is read back as that id, for exactly the ids 1 to 2^63-1 |
| `StatNames.EmailInjective` | internal/xray/stats.go:230-235 | different ids have different emails |
| `StatNames.EmailParsesExactly` | internal/xray/stats.go:237-246 | exactly which emails are read as an id: digits, perhaps with leading zeros or a plus sign |
| `StatNames.StatNameParsesExactly` | internal/xray/stats.go:215-228 | a counter name is billed to a meter iff it is the counter of an email read as its subscription |
| `StatNames.CounterNames` | internal/xray/stats.go:215-228 | the names of the two counters of an email are user>>>email>>>traffic>>>uplink and the same with downlink |
| `StatNames.StatNamesSpeltOut` | internal/xray/stats.go:215-228 | a name is read as the uplink of an id iff it is user>>>email>>>traffic>>>uplink with an email read as that id, and so for downlink |
| `StatNames.RuntimeUserEmails` | internal/xray/stats.go:230-235 | the email of an id is "u_" and its digits from 1 on, empty otherwise |
| `StatNames.StatNameRoundTrip` | internal/xray/stats.go:215-235 | the counter name of a rendered email is read back as its id and direction |
| `Text.SplitOfJoin` | internal/xray/stats.go:216 | parts without the separator's character survive joining and splitting |
| `Text.JoinOfSplit` | internal/xray/stats.go:216 | splitting loses nothing: joining gives the text back |
| `Text.TrimSpaceExactly` | internal/app/xray_runtime.go:244 | trimming takes all white space off both ends and nothing else |
| `Text.DigitsCountInTens` | internal/xray/stats.go:241 | a digit appended to a number is ten times the number plus the digit |
| `Text.FormatIsCanonical` | internal/xray/stats.go:234 | the text of a number has its digits and no leading zero |
| `Text.ParsePositive` | internal/xray/stats.go:241 | a positive number is read from exactly its digits, leading zeros allowed, with a plus sign or none before them |
| `Text.ToLowerExactly` | internal/app/xray_runtime.go:232-236 | lowering changes capital ASCII letters to small ones, no other ASCII character, and two others into ASCII |
| `Text.ParseOfFormat` | internal/xray/stats.go:234-241 | a formatted number parses back iff it fits in int64 |
| `Traffic.Increase` | internal/xray/stats.go:99-106 | growth since the cursor, or the whole value after a reset, never negative |
| `Traffic.GrownIsOwed` | internal/xray/stats.go:104-111 | a subscription is listed iff one of its meters is owed bytes |
| `Traffic.StatsCollector.constructor` | internal/xray/stats.go:45-53 | the cursor is the file's table if it reads, else empty |
| `Traffic.StatsCollector.CollectFromResponse` | internal/xray/stats.go:82-125 | every meter gets its sum of increases modulo 2^64, uplink counters in the upload and downlink counters in the download of the row, listed subscriptions are exactly those that grew, each once; the cursor waits |
| `Traffic.SettledRowsCarry` | internal/xray/stats.go:112-117 | in every row of such a collection the upload is what the uplink counters owe and the download what the downlink counters owe, modulo 2^64 |
| `Traffic.StatsCollector.Values` | internal/xray/stats.go:120-124 | the table's rows, each once, in some order, with the same totals |
| `Traffic.StatsCollector.Commit` | internal/xray/stats.go:63-74 | the cursor takes the collected values even if saving fails; without a collection nothing changes |
| `Traffic.StatsCollector.SaveCursor` | internal/xray/stats.go:194-203 | the file becomes the cursor or stays; no file is no error |
| `Traffic.TrafficRequest` | internal/serverclient/client.go:316-333 | the client's filter drops rows without bytes and so posts exactly the bytes collected |
| `Billing.ListedOnce` | internal/xray/stats.go:88-106 | a counter shown once owes exactly its increase and is committed at its value |
| `Billing.NewBytesAreOwed` | internal/xray/stats.go:98-106 | a counter that the cursor does not know, or that lies below it, owes its whole value, any other what it grew by |
| `Billing.NeverOverbills` | internal/xray/stats.go:63-125 | over every run with failures, resets and crashes, a meter is never billed more than flowed through its counters |
| `Billing.LossIsBounded` | internal/xray/stats.go:63-125 | unbilled bytes are at most those uncovered now, the first cursor, and per reset the uncommitted bytes plus the cursor held on |
| `Billing.BillingTelescopes` | internal/xray/stats.go:98-106 | without resets, from a cursor not above the counter, billing gains exactly last cursor less first |
| `Billing.StaleCursorDoesNotTelescope` | internal/xray/stats.go:98-106 | above the counter it does not: the next report breaks the equation |
| `Billing.CanonicalLedgerIsExact` | internal/app/app.go:568-588 | with names the agent renders, the ledger of a meter is its counter's billing, within its true bytes |
| `Billing.LedgerTelescopes` | internal/app/app.go:568-588 | and telescopes exactly without resets |
| `Billing.TwoCountersDoNotWrap` | internal/xray/stats.go:112-117 | whatever the names, a meter is owed at most 2^63-1 per counter of it, so with up to two counters the uint64 sums never wrap |
| `Billing.CanonicalReplyDoesNotWrap` | internal/xray/stats.go:112-117 | with names the agent renders a meter has one counter, and its sum stays below 2^63 |
| `Billing.NonCanonicalNamesCanWrap` | internal/xray/stats.go:112-117 | from three on they can: three full counters of one id owe more than a uint64 |
| `Billing.OwedIsSum` | internal/xray/stats.go:88-117 | what a reply owes a meter is the sum over the meter's counters |
| `Billing.TrafficReporter.ReportTraffic` | internal/app/app.go:568-588 | one call is collect, post and commit in order, stopping where one fails; posted rows carry uplink bytes as upload and downlink bytes as download, and the ledger grows by exactly those; nothing is posted when nothing grew; movers count as online |
| `Agent.SnapshotRoundTrip` | internal/app/app.go:644-682 | a users snapshot read back is the version and list it was written from |
| `Startup.SnapshotFields` | internal/app/app.go:644-682 | every field of every user goes into the snapshot and comes back under its own name |
| `Startup.ValidExactly` | internal/app/app.go:613-626 | a list is valid iff every user has a positive id, a non-blank uuid and a non-blank password |
| `Startup.BootExactly` | internal/app/app.go:76-120 | a new process has the files, nothing running, no index, no config and an empty pending report; its users are those of the snapshot, field by field, if that reads and all have credentials, else none |
| `AgentProofs.StepReportsConsistently` | internal/app/app.go:275-374 | every step keeps: pulled equals applied and, for a non-blank version in force, equals it; state, health and stored error fit together |
| `AgentProofs.AlwaysReportsConsistently` | internal/app/app.go:506-531 | hence every run, process restarts included |
| `AgentProofs.DesiredFollowsServer` | internal/app/app.go:283-285 | after an answered pull the desired version is the server's, up to surrounding space |
| `AgentProofs.ConfigPullOutcome` | internal/app/app.go:275-327 | a pull keeps version and body, or succeeds with both from one response and instance and files at its rendering; failure always keeps |
| `Startup.ConfigPullSucceedsExactly` | internal/app/app.go:275-327 | a config pull succeeds iff the request is answered and either it names the version in force and something runs or the restart works, or its body is a document, geodata works, and the rendering is applied; exactly in the second case the response is put in force |
| `Startup.ConfigPullReports` | internal/app/app.go:275-327 | the exact report of a config pull: nothing without an answer, the desired version alone if that runs already, else all of desired, pulled and applied version, state, health and error |
| `Startup.StartSucceedsExactly` | internal/app/app.go:462-475 | a restart from the files works iff the current file is found and it, or else last_good, reads and starts, the latter only if it is put back too |
| `AgentProofs.ConfigAlwaysKnown` | internal/app/app.go:310-318 | over every run, version and body in force are the first, none, or one response of the server |
| `AgentProofs.UsersPullOutcome` | internal/app/app.go:329-374 | a list that is not applied changes nothing; an applied one moves version, list and snapshot together, unless the snapshot has no path or its write fails: then the list moves alone and the pull fails |
| `Startup.UsersPullSucceedsExactly` | internal/app/app.go:329-374 | a users pull succeeds iff the request is answered and either it names the version known, or all its users have credentials, the list can be synced, waits for a body, or can be applied in full, and the snapshot is written |
| `Startup.UsersPullReports` | internal/app/app.go:329-374 | an unanswered, known or invalid list changes nothing at all; one that cannot be applied is reported as a failure under the users of before; one that is applied changes no report |
| `AgentProofs.UsersAlwaysKnown` | internal/app/app.go:329-434 | over every run with crashes anywhere, what a new process loads is the first snapshot or version and list of one response that a step applied; what is in force is that, the first pair, none, or the list of an applied response under the version of before its failed snapshot write |
| `AgentProofs.StepKeepsMirror` | internal/app/app.go:275-475 | every step of the agent keeps the runtime's index in step with the instance |
| `Delivery.StartKeepsTogether` | internal/xray/runtime.go:103-127 | Start keeps what runs and what is stored of one frame |
| `Delivery.ApplyOfAnotherFrame` | internal/xray/runtime.go:31-57 | an Apply of another frame parts the frames iff it leaves its config in the current file |
| `Delivery.ApplyOfSameFrame` | internal/xray/runtime.go:31-57 | an Apply of the same frame keeps the frames together and leaves a marked instance iff it keeps one |
| `Delivery.SyncKeepsFrame` | internal/xray/runtime.go:59-101 | a sync changes neither the running frame nor, when it succeeds, the mark |
| `Delivery.ApplyTogether` | internal/xray/runtime.go:31-57 | exactly when a frame is together after an Apply, from any state |
| `Delivery.StartTogether` | internal/xray/runtime.go:103-127 | exactly when it is after a Start |
| `Delivery.SettledExactly` | internal/app/app.go:275-475 | from any state, settled or not: exactly which steps end in a settled one |
| `Delivery.SettledStep` | internal/app/app.go:275-475 | from a settled state, exactly the two parting pulls lead to one that is not |
| `Delivery.ConfigPullSettles` | internal/app/app.go:309-319 | a config pull that puts a body in force settles any state |
| `Delivery.UsersPullSettles` | internal/app/app.go:346-383 | so does a successful users pull, except that a hot sync alone leaves an instance out of touch as it was |
| `Delivery.RunIsSettled` | internal/app/app.go:145-171 | over every run the state is settled iff there is no parting pull that no mending step came after, both told from the state before the step and from what works |
| `Reports.StepAppliedRuns` | internal/app/app.go:506-531 | whoever reports a config as applied has an instance running |
| `Reports.StartReports` | internal/app/app.go:462-475 | a start from the current file makes a report that is true iff the file that runs is a rendering of the body in force |
| `Reports.TrulyStep` | internal/app/app.go:286-297 | while the report is true, exactly a restart from a file that is no rendering of the body in force makes it untrue |
| `Reports.RenewedExactly` | internal/app/app.go:275-475 | while it is untrue, exactly the renewing steps make it true: pulls that apply or fail, a truthful sync, a restart from the right file, a new process |
| `Reports.AppliedMeansInForce` | internal/app/app.go:506-531 | over every run, applied means that a clean instance runs the body in force with the users in force, iff there is no misleading restart that no renewing step came after |
| `Delivery.SyncDelivers` | internal/app/app.go:385-406 | a successful hot sync leaves the instance as a fresh start with the new list iff it was truthful |
| `Delivery.UsersPullDelivers` | internal/app/app.go:376-383 | exactly what a successful users pull delivers: through the full apply always, through the hot sync iff that was truthful, the instance is as a fresh start with the new list and both files hold it |
| `Delivery.InTouchMeansTruthful` | internal/app/app.go:385-406 | in touch and in step with the index, a sync is truthful |
| `Delivery.EveryUsersPullDelivers` | internal/app/app.go:145-171 | over every run, a successful users pull delivers, unless a parting pull came before that no step has mended since |
| `AgentCounterexamples.RestartTrustsTheFile` | internal/app/app.go:286-297 | with nothing running, whatever config lies in the current file is run and reported as the version in force |
| `AgentCounterexamples.AppliedCanBeAnotherVersion` | internal/app/app.go:286-297 | a run from the first process, for any two bodies with different renderings: one version is reported as applied while the other one runs |
| `AgentCounterexamples.AppliedCanBeAnotherTemplate` | internal/app/app.go:286-297 | the same run with bodies that differ in a client template only: all frames are together and the report is still untrue |
| `AgentCounterexamples.SyncCanServeAnotherVersion` | internal/app/app.go:310-319 | a run from the first process: a users pull succeeds and writes a config to both files while another one runs |
| `AgentCounterexamples.UsersPullCanMissUsers` | internal/app/app.go:346-353 | a run from the first process: a users pull succeeds while a user of its list is not served |
| `AgentCounterexamples.PlainBodiesCanPart` | internal/app/xray_runtime.go:37-64 | bodies for which the run of SyncCanServeAnotherVersion exists |
| `AgentCounterexamples.VlessBodyCanServe` | internal/app/xray_runtime.go:256-289 | a body and a list for which the run of UsersPullCanMissUsers exists |
| `AgentObject.App.ValidateRuntimeUsers` | internal/app/app.go:613-626 | accepts exactly lists with positive ids and non-blank credentials |
| `AgentObject.App.LoadRuntimeUsersSnapshot` | internal/app/app.go:418-434 | version and list come from a snapshot that reads and validates, or stay |
| `AgentObject.App.Launch` | internal/app/app.go:76-120 | a new object that loads its snapshot is the specified new process |
| `AgentObject.App.MarkRuntimeApplied` | internal/app/app.go:506-517 | the reported state is the specified one |
| `AgentObject.App.MarkRuntimeFailed` | internal/app/app.go:519-531 | the reported state is the specified one |
| `AgentObject.App.WriteEffectiveRuntimeConfig` | internal/app/app.go:436-460 | renders and applies, or does nothing without a body |
| `AgentObject.App.SyncRuntimeUsers` | internal/app/app.go:385-406 | refuses without a running instance or a rendering, else syncs |
| `AgentObject.App.ApplyRuntimeUsers` | internal/app/app.go:376-383 | sync first, full apply if that fails for any reason |
| `AgentObject.App.StartXrayFromCurrent` | internal/app/app.go:462-475 | starts from an existing current file and reports how that went |
| `AgentObject.App.RestoreLastGoodConfig` | internal/app/app.go:684-701 | an existing current file is kept; else a valid last_good becomes it |
| `AgentObject.App.Recover` | internal/app/app.go:130-137 | what follows a failed first pull |
| `Startup.RestoreExactly` | internal/app/app.go:684-701 | restoring works iff both paths are set and a current file is there, or last_good is a document and is copied to it; nothing else changes |
| `Startup.RecoverRunsExactly` | internal/app/app.go:130-137 | exactly when a recovery, with nothing running, leaves an instance running |
| `Startup.RecoverReports` | internal/app/app.go:130-137 | the exact report of a recovery: none if no current file is found in the end, else how the start went, under the version in force |
| `Startup.StartUpUnanswered` | internal/app/app.go:115-137 | if the server answers nothing, the start-up is a recovery, and an instance runs afterwards iff the current file is there or restored and it, or else last_good, starts; for every pattern of failures |
| `Startup.CurrentRunsUnanswered` | internal/app/app.go:115-137 | if the server answers nothing and nothing fails from outside, a current file that builds runs after the start-up |
| `Startup.StartUpRunsExactly` | internal/app/app.go:115-137 | where nothing fails from outside, whatever the server answers: an instance runs after the start-up iff the answered config builds, or, if it was written unvalidated and does not, last_good builds, or, in all other cases, the current file or last_good behind it builds |
| `AgentObject.App.StartUp` | internal/app/app.go:115-137 | the object loads its snapshot, pulls the users, pulls the config and recovers if that pull failed, as specified |
| `AgentObject.App.PullRuntimeConfig` | internal/app/app.go:275-327 | the object's pull is the specified transition, rollback included |
| `AgentObject.App.PullRuntimeUsers` | internal/app/app.go:329-374 | the object's users pull is the specified transition, rollback included |
| `Wakeup.StepKeepsInvariant` | internal/app/app.go:234-256 | every step of either goroutine keeps: an event accepted since the last pull began is in the channel or in the loop's hands |
| `Wakeup.EventsAreOffered` | internal/app/app.go:234-256 | an event goes into the channel or finds one there, unless it is a snapshot event naming the version the stream was opened with: then nothing happens |
| `Wakeup.RunKeepsInvariant` | internal/app/app.go:145-171 | hence every interleaving, and the config in force never goes back |
| `Wakeup.NoWakeupIsEverLost` | internal/app/app.go:145-171 | from the start of the loop on, in every interleaving, no wake-up is lost |
| `Wakeup.RestMeansUpToDate` | internal/app/app.go:150-171 | a resting loop with an empty channel and a successful last pull is as new as every event ever delivered, dropped and filtered ones too |
| `Frames.SizeBytes` | internal/serverclient/client.go:295 | four bytes that read back as the size |
| `Frames.WatchRuntime` | internal/serverclient/client.go:286-313 | the receiving loop handles the specified events and ends the specified way |
| `Frames.FrameSpeltOut` | internal/serverclient/client.go:286-313 | byte by byte, for any bytes: fewer than five end the loop; the next four are the size, first one heaviest, over 4194304 an error; a whole frame ends the loop without an event iff its flags modulo 4 are 2 or 3, else its payload is decoded and handed over |
| `Frames.EndFrameIsNoEvent` | internal/serverclient/client.go:303-305 | the bytes 2, 0, 0, 0, 2, {, } end the stream with no event; with flags 0 the same bytes are one |
| `Frames.FrameBytes` | internal/serverclient/client.go:294-302 | a frame is sent as its flags, four size bytes and the payload |
| `Frames.WatchSplits` | internal/serverclient/client.go:286-313 | whole frames do what they do one by one, whatever they hold, and unless one ends the loop decoding goes on with what follows |
| `Frames.StopsAtEndOfStream` | internal/serverclient/client.go:303-305 | the first end-of-stream frame ends it cleanly whatever comes after |
| `Frames.CutStream` | internal/serverclient/client.go:286-302 | a cut stream is its whole frames and a proper beginning of the next |
| `Frames.TruncationHandsOverPrefix` | internal/serverclient/client.go:288-302 | a stream of any frames cut anywhere does exactly what its whole frames do; if none of them ends it, no error inside a header, an error inside a payload |
| `Frames.CutHandsOverPrefix` | internal/serverclient/client.go:286-313 | for any bytes, decoder and handler, a cut stream hands over a beginning of what the whole one does, and ends with the same fault if it meets one |
| `OnlineUsers.CallReflects` | internal/app/online_users.go:27-59 | one more call keeps the table what the history of calls demands |
| `OnlineUsers.SawExactly` | internal/app/online_users.go:33-38 | a call sees a subscription iff it observes a row with that positive id and upload or download bytes |
| `OnlineUsers.MonotoneClockMeansWindow` | internal/app/online_users.go:52-59 | with a clock that never goes back, online means seen within the window before the last call |
| `OnlineUsers.OnlineUserTracker.constructor` | internal/app/online_users.go:17-25 | an empty tracker; a window that is not positive becomes 30 seconds |
| `OnlineUsers.OnlineUserTracker.Prune` | internal/app/online_users.go:52-59 | drops exactly the entries older than the window |
| `OnlineUsers.OnlineUserTracker.Observe` | internal/app/online_users.go:27-40 | keeps the table in step with the history extended by this call |
| `OnlineUsers.OnlineUserTracker.Count` | internal/app/online_users.go:42-50 | the number of subscriptions that the history of calls says are online, clocks going back included |

## Left out

- xray-core itself: a function from configs to inbounds with users stands for its decoding and building; starting an instance, and each call of a user manager, may also fail for outside reasons, and the lookup, the conversion and the call for one user share one such failure.
- Configs in which two managed inbounds share a tag or one lists an email twice: the model's xray-core refuses to start them.
- What an inbound turns into when its list becomes empty (xray-core may build a single-user server then): only user tables are compared, per tag.
- JSON text: documents are values, so key order, escaping, duplicate keys and the float64 rounding of numbers do not appear; the string-list case of the API-route test cannot arise from decoded JSON.
- Letter case outside ASCII: lowering is exact for every character whose lower case is ASCII, which is all that protocol and level names need.
- HTTP, gRPC, authentication, registration, timeouts and cancelled contexts: a request succeeds with an answer or fails; a cancelled context is one more outside failure.
- Geodata download: a yes or no given to the config pull.
- Status reports and the collectors behind them: only the fields the agent reports about its own config are modelled; the time stamp of the last error is not.
- Error texts: arbitrary texts given to the pulls; whether a fallback is logged is left out.
- Mutexes: the runtime's methods do not interleave; the watch goroutine and the loop do, in `Wakeup`, where its unsynchronised read of the version in force is one step.
- Config versions in `Wakeup` are revisions that only grow; the code compares version texts for equality only.
- The users snapshot and the traffic cursor live in files of their own, apart from the two configs.
- The traffic query returns any faithful selection of counters; its name pattern is not modelled.
- Nil receivers and a nil client, runtime or collector: the agent's constructor always sets them.
