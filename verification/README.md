# Verified model of the Remnawave node core

This project models the parts of the Go repository `rw-node-go` that decide whether the node
behaves: the lifecycle of the embedded xray-core instance, the cache of what is running, the
configuration builder, the tracking of users, the traffic counters, the normalisation of PEM text
and the comparison of contract manifests. Every statement below is proved by Dafny for all inputs,
all interleavings or all runs it speaks of.

Check everything with `dafny verify dfyconfig.toml`.

## How the model is built

**Lifecycle** (`Lifecycle*.dfy`). A state machine over any number of `Start` and `Stop` requests,
starter goroutines and reaper goroutines. Each lock region and each beginning or return of a call
into xray-core is one step, and the outcome of such a call (load, create, start, close, timeout) is
chosen by the event, so nothing is assumed about it. `LifecycleInvariant` says who is responsible
for each instance and needs no guard; `LifecycleGuarded` adds what the single-flight guard gives;
`LifecycleSafety`, `LifecycleProgress` and `LifecycleSequential` draw the consequences.
`LifecycleRuns` speaks of runs between two states and `LifecycleScenarios` drives a request through
one, which shows what fails without the guard; `LifecycleOverlap` says exactly when requests that
are sent without waiting for answers leave the flags right. `LifecycleRefinement` shows that
requests served one at a time do what the sequential model says.

**Sequential requests** (`Sequential.dfy`, `SequentialLaws.dfy`, `XrayController.dfy`). The same controller as classes
whose methods are proved against a transition function, what each request answers and leaves, and
what holds after any series of requests.

**Shared state** (`StateSpec.dfy`, `Restart.dfy`, `RuntimeState.dfy`, `Isolation.dfy`,
`InternalController.dfy`). `RuntimeState` is a class with the program's fields. Its configuration is
a real object graph of mutable maps and slices (`JsonHeap.dfy`); its invariant says that no object
it owns was ever passed in by, or handed out to, a caller, and `Isolation` that none can be reached
from what callers hold, however they link it together.

**Configuration** (`JsonTree.dfy`, `JsonHeap.dfy`, `ConfigSpec.dfy`, `ConfigBuilder.dfy`,
`ConfigLaws.dfy`). `ConfigBuilder.Build` runs on the heap, with the shallow copy and the in-place
port write of the program, and is proved equal to a function on JSON trees, whose laws follow.

**Users** (`Users.dfy`, `Survival.dfy`, `HandlerSpec.dfy`, `HandlerLaws.dfy`, `HandlerController.dfy`). The that may refuse any call; a log records what they do outside the state, in order.

**Counters** (`StatNames.dfy`, `Stats.dfy`, `StatsLaws.dfy`), **text** (`Text.dfy`, `Pem.dfy`,
`PemLaws.dfy`), **manifests** (`ContractDiff.dfy`), and sorted lists of maps for all of them
(`Sorting.dfy`).

**Laws in full.** The methods are proved against specification functions. What those functions
compute is in turn stated without them, by paths, positions and literal names: `ConfigLaws`,
`SequentialLaws`, `HandlerLaws`, `StatsLaws`, `PemLaws`, and in `Restart` and `StateSpec`.

## What turned out not to hold as one might hope

- Without the guard two Starts from an empty slot leave a running instance that nobody holds
  (`WithoutGuardInstancesLeak`); the close discipline holds even then.
- When a Stop overlaps a Start the flags of the cache can be wrong at rest in both directions: they
  can deny a running instance, and they can claim one over an empty slot (`EitherDirection`). From a
  reachable state at rest, requests sent without waiting for answers leave the flags right in every
  completion exactly if they are all Starts and the flags were right, or all Stops, or the slot is
  empty and no Start among them has a configuration that can be built (`FlagsSurviveExactly`). Starts
  that overlap Starts and Stops that overlap Stops do no harm (`FlagsTellTheTruth`). The
  configuration and hashes agree with the slot in every run.
- A restart because of changed inbounds may name no inbound at all. This is possible exactly for
  stored lists in which two entries share a tag and no two entries with equal tags differ
  (`UnexplainedExactly`); with distinct tags it is not.
- A second `Build` does not forget a first one that set the hysteria port unless it sets the port
  itself or the port was the same already (`BuildAbsorbs`, an equivalence).
- A rotated user hash stays behind exactly if it was there, by its own request or from before, and
  the request that should replace it did not get as far as its removal loop (`RotationLeaves`).
- A tag that is empty, contains `>>>` or ends in `>` has counters that a point read finds and every
  bulk read and parser rejects (`TrafficRoundTrip`).
- `RemoveUser` can answer success together with an error: it succeeds if some inbound let go of the
  user and reports the first refusal either way (`RemovalsExactly`).

## Model

| member | source | states |
|---|---|---|
| LifecycleInvariant.RequestKeepsOwnership | internal/controller/xray_controller.go:31-143 | every step of Start outside the core keeps each instance with at most one holder and keeps the facts each holder relies on |
| LifecycleInvariant.CoreKeepsOwnership | internal/xray/core.go:55-114 | every step of the core's Start keeps each instance with at most one holder and keeps the facts each holder relies on |
| LifecycleInvariant.GoKeepsOwnership | internal/xray/core.go:94-112 | the same for the starter and reaper goroutines |
| LifecycleInvariant.StopKeepsOwnership | internal/xray/core.go:116-129 | the same for Stop, which runs without any guard |
| LifecycleGuarded.RequestKeepsSingleFlight | internal/controller/xray_controller.go:179-193 | at most one Start is between tryBeginStart and endStart, and the flag is set exactly while one is |
| LifecycleGuarded.CoreKeepsCache | internal/xray/core.go:55-90 | with the guard, the slot is empty from swap to install, and a full slot is described by the cache except between install and publication |
| LifecycleGuarded.RequestKeepsCache | internal/controller/xray_controller.go:63-133 | the same for the controller's own steps, SetXrayStarted included |
| LifecycleGuarded.CoreKeepsCovered | internal/xray/core.go:69-114 | no instance ever loses its last holder |
| LifecycleGuarded.EventKeepsInvariant | internal/xray/core.go:55-129 | the whole invariant is kept by every event of every interleaving |
| LifecycleGuarded.RunsKeepInvariant | internal/xray/core.go:55-129 | hence it holds in every reachable state |
| LifecycleSafety.CloseDiscipline | internal/xray/core.go:92-129 | with or without the guard, an instance is closed at most once, never while its start call is running, and has at most one holder |
| LifecycleSafety.ExactlyOneHolder | internal/xray/core.go:55-129 | every instance ever constructed is with exactly one of: a Start, the slot, a Stop, its reaper, the closed set |
| LifecycleSafety.NoLeak | internal/xray/core.go:55-129 | at rest, instances created are those closed plus one if the slot is full, whatever failed, timed out or raced |
| LifecycleSafety.BoundedOverlap | internal/xray/core.go:69-87 | active instances never exceed one plus those abandoned by a timeout plus Stops in the middle of a close |
| LifecycleSafety.StarterBeginsAlone | internal/xray/core.go:69-97 | when a start call begins, every other active instance is abandoned or held by a Stop |
| LifecycleSafety.OldClosedBeforeNewStarts | internal/xray/core.go:69-80 | without timeouts and Stops in mid-close, nothing is active when the new instance begins to start |
| LifecycleSafety.CacheDescribesSlot | internal/state/runtime.go:73-90 | a full slot holds an instance built from exactly CurrentConfig and LastHashes unless a Start is about to publish, with Stops anywhere |
| LifecycleSafety.CacheRemembersLatestStart | internal/state/runtime.go:73-81 | in every interleaving version, configuration and hashes are those of the Start that last published, whatever Stops, failures and handlers do |
| LifecycleSafety.UpToDateAnswerIsTrue | internal/controller/xray_controller.go:63-84 | a Start that answers "no restart required" saw, at its health check, a running instance whose hashes equal the request's as a multiset |
| LifecycleSafety.GoneCoreIsRestarted | internal/controller/xray_controller.go:66-94 | a Start whose health check finds the core gone lowers both flags and goes on to restart, and changes nothing else on the way |
| LifecycleSafety.StartedAnswerIsTrue | internal/controller/xray_controller.go:111-142 | a Start that answers "started" installed an instance that started and was built from that request's own configuration and hashes |
| LifecycleProgress.EventLowersRank | internal/xray/core.go:55-129 | every step of the system lowers a bound on the steps that are left |
| LifecycleProgress.RunsAreBounded | internal/xray/core.go:55-129 | from any reachable state the steps possible without new requests are bounded by its rank |
| LifecycleProgress.NoDeadlock | internal/xray/core.go:92-114 | a state that is not at rest can always step |
| LifecycleProgress.ExhaustedRunsLeakNothing | internal/xray/core.go:55-129 | a run that can only wait for requests is at rest and has leaked nothing |
| LifecycleScenarios.WithoutGuardInstancesLeak | internal/controller/xray_controller.go:179-193 | a run without the guard that ends at rest with an active instance nobody holds |
| LifecycleSequential.RunsWithoutMixedOverlapAreTruthful | internal/controller/xray_controller.go:31-214 | what a Start knows about the flags at each of its points, in every run in which no Start overlaps a Stop |
| LifecycleSequential.FlagsTellTheTruth | internal/state/runtime.go:64-99 | if no Start overlaps a Stop then, whenever no request is half done, both flags say exactly whether the slot is full, and the cache describes its instance |
| LifecycleOverlap.FlagsSurviveExactly | internal/controller/xray_controller.go:145-214 | which requests, sent together from any reachable state at rest, leave the flags right in every completion, as an equivalence |
| LifecycleOverlap.TwoRequestsExactly | internal/controller/xray_controller.go:145-214 | two requests sent together leave the flags right if and only if they are of one kind, or the slot is empty and the Start cannot be built |
| LifecycleOverlap.EitherDirection | internal/controller/xray_controller.go:111-161 | over an empty slot a Stop and a Start that can succeed have a completion that denies a running instance and one that claims an instance that is gone |
| LifecycleRefinement.LoneStartFollows | internal/controller/xray_controller.go:31-143 | at each point of a Start that alone moves, the cache and the slot are what the sequential transition has made of them so far |
| LifecycleRefinement.ServedIsDone | internal/controller/xray_controller.go:31-167 | a request that alone moves acts on the cache and the slot as one operation of the sequential model, its answer included |
| LifecycleRefinement.OneAtATimeIsSeries | internal/controller/xray_controller.go:31-167 | any number of requests served one at a time amount to a series of such operations |
| Sequential.OpKeepsAgreement | internal/controller/xray_controller.go:96-133 | one completed request, with any outcome, keeps both flags equal to "the slot is full" |
| Sequential.SeriesAgree | internal/controller/xray_controller.go:31-214 | after any series of requests version, configuration and hashes are those of the latest successful Start |
| SequentialLaws.StartAnswersExactly | internal/controller/xray_controller.go:50-142 | which of the four answers a Start that runs alone gives, for every request, state and outcome |
| SequentialLaws.UnneededStartLeaves | internal/controller/xray_controller.go:50-84 | a request that cannot be read changes nothing; one that asks for what is running renews the cached status only |
| SequentialLaws.FailedStartLeaves | internal/controller/xray_controller.go:96-125 | after a failure both flags say whether something is still installed, which is so unless the new instance was tried; nothing else changes |
| SequentialLaws.SuccessfulStartLeaves | internal/controller/xray_controller.go:127-134 | after a success slot, flags, version, configuration and hashes are those of the request, and no user is tracked |
| SequentialLaws.SuccessfulStartLearns | internal/state/runtime.go:73-90 | after a success exactly the inbounds are known that the hashes name or that have a protocol in the configuration |
| SequentialLaws.SuccessfulStartRecords | internal/state/inbounds.go:52-63 | and the protocol of each is that of the last item that has its tag and a protocol |
| XrayController.EmbeddedCore.Start | internal/xray/core.go:55-114 | which of close-old, start-new and close-new are called, in which order, for each outcome, and what is installed |
| XrayController.EmbeddedCore.Stop | internal/xray/core.go:116-129 | the slot is emptied and what was in it is closed |
| XrayController.XrayController.Start | internal/controller/xray_controller.go:31-143 | one request refines the sequential transition; a request that finds another in progress changes nothing |
| XrayController.XrayController.Stop | internal/controller/xray_controller.go:145-167 | Stop refines its transition and closes what was installed |
| XrayController.XrayController.SyncStartFailureState | internal/controller/xray_controller.go:207-214 | after a failure the flags are set to what the slot says |
| Restart.NoRestartExactlyWhenUpToDate | internal/state/runtime.go:115-128 | no restart if and only if not forced, core running, previous hashes, equal base hash and equal inbound multisets |
| Restart.ReorderedRequestIsUpToDate | internal/state/runtime.go:193-208 | after SetXrayStarted(h) exactly the reorderings of h are up to date |
| Restart.NamesFirstDifference | internal/state/runtime.go:138-165 | the inbound named is the first stored one whose tag is absent from the request or whose last-wins entry differs |
| Restart.NamesNobodyWithoutDifference | internal/state/runtime.go:165-166 | the untagged answer is given only if every stored inbound agrees with the index |
| Restart.DistinctTagsAreExplained | internal/state/runtime.go:138-166 | with pairwise distinct stored tags the untagged answer is unreachable, by pigeonhole |
| Restart.UnexplainedExactly | internal/state/runtime.go:138-166 | the stored lists for which some request reaches the untagged answer, exactly |
| Restart.DecideEarly | internal/state/runtime.go:115-137 | reason and base hashes of every decision that looks at no inbound |
| Restart.DecideNamesFirst | internal/state/runtime.go:138-165 | otherwise the decision itself names the first stored inbound that is not still there, with both hashes and the right reason |
| Restart.DecideNamesNobody | internal/state/runtime.go:138-166 | if all stored inbounds are still there it names none, and then two of them share a tag |
| Restart.DecideNamesSomebody | internal/state/runtime.go:138-166 | with distinct stored tags some inbound is always named, the first that is not still there |
| RuntimeState.CompareHashes | internal/state/runtime.go:193-208 | counting up and down decides equality as multisets |
| RuntimeState.CloneHashes | internal/state/runtime.go:236-243 | a new list with the same entries |
| RuntimeState.ExplainRestart | internal/state/runtime.go:138-166 | the index and the ordered search compute the explanation |
| RuntimeState.InboundProtocolsFromConfig | internal/state/inbounds.go:102-122 | protocols by tag, a later inbound with the same tag winning, anything malformed skipped |
| StateSpec.ConfigProtocolsExactly | internal/state/inbounds.go:102-122 | a tag maps to a protocol if and only if both are non-empty and the last inbound object with that tag and a protocol, both strings, has it |
| StateSpec.ConfigProtocolsKnow | internal/state/inbounds.go:102-122 | a tag has a protocol at all if and only if some inbound object has it with one |
| RuntimeState.ConfigProtocolsHaveTags | internal/state/inbounds.go:117-121 | no protocol is ever recorded for the empty tag |
| RuntimeState.SortedMembers | internal/state/inbounds.go:5-15 | the one strictly increasing list of the members, whatever order the map is ranged over |
| RuntimeState.InOrderLists | internal/state/inbounds.go:5-15 | that list is strictly increasing and has exactly the members |
| RuntimeState.RuntimeState.constructor | internal/state/runtime.go:47-56 | the initial state, owning only new objects |
| RuntimeState.RuntimeState.SetXrayRunning | internal/state/runtime.go:64-71 | lowering the flag also lowers the cached status; nothing else changes |
| RuntimeState.RuntimeState.SetXrayInternalStatusCached | internal/state/runtime.go:92-99 | lowering the cached status also lowers the flag; nothing else changes |
| RuntimeState.RuntimeState.SetXrayStarted | internal/state/runtime.go:73-90 | the new state is the given values, users and protocols are forgotten, tags are relearned, and every stored object is new |
| RuntimeState.RuntimeState.TakeSnapshot | internal/state/runtime.go:101-113 | equal values, every object handed out new, the state unchanged |
| RuntimeState.RuntimeState.CallersCannotChangeState | internal/state/runtime.go:73-113 | code that writes only objects the state does not own, or new ones, leaves the stored state as it was |
| Isolation.OwnIsOutOfReach | internal/state/runtime.go:73-113 | no stored references lead from what callers hold to an object the state owns |
| Isolation.CallersStayOutside | internal/state/runtime.go:73-113 | callers that write and link their objects and new ones in any way change nothing, and still cannot reach what the state owns |
| Isolation.PassIn | internal/state/runtime.go:73-90 | passing objects to SetXrayStarted leaves them on the callers' side |
| Isolation.HandOut | internal/state/runtime.go:101-113 | the objects of a snapshot join the callers' side, and it stays closed |
| RuntimeState.RuntimeState.DecideRestart | internal/state/runtime.go:115-166 | the decision of the specification, branch by branch |
| RuntimeState.RuntimeState.RecordInboundProtocols | internal/state/inbounds.go:52-63 | protocols and tags of the configuration are added, in any order of the range |
| RuntimeState.RuntimeState.AddKnownInboundTag | internal/state/inbounds.go:17-24 | the tag becomes known unless it is empty |
| RuntimeState.RuntimeState.AddKnownInboundTags | internal/state/inbounds.go:26-34 | all non-empty tags become known |
| RuntimeState.RuntimeState.SetInboundProtocol | internal/state/inbounds.go:36-44 | tag known and protocol set unless one of them is empty |
| RuntimeState.RuntimeState.AddUserToInbound | internal/state/inbounds.go:65-76 | the hash is added at the tag, which becomes known, unless one of them is empty |
| RuntimeState.RuntimeState.RemoveUserFromInbound | internal/state/inbounds.go:78-88 | the hash is removed at the tag; an unknown tag changes nothing |
| RuntimeState.RuntimeState.KnownInboundTags | internal/state/inbounds.go:5-15 | the known tags in order |
| RuntimeState.RuntimeState.InboundUserHashes | internal/state/inbounds.go:90-100 | the tracked hashes of a tag in order |
| InternalController.GetConfig | internal/controller/internal_controller.go:18-35 | the stored configuration plus the derived name; every object of the answer is new and the stored state is untouched |
| InternalController.WithSni | internal/controller/internal_controller.go:26-33 | the decorated map is new and shares the values of the snapshot |
| JsonHeap.CloneMap | internal/xray/config.go:70-94 | a deep clone: same JSON, all objects new and none shared, whatever sharing the input has |
| ConfigBuilder.EnsureMap | internal/xray/config.go:96-101 | a clone of a map, an empty map in place of anything else |
| ConfigBuilder.EnsureArray | internal/xray/config.go:103-110 | a new slice whose elements are the very elements of the input |
| ConfigBuilder.HasTag | internal/xray/config.go:112-126 | finds a tag exactly if some inbound or outbound map carries it |
| ConfigBuilder.WritePorts | internal/xray/config.go:55-68 | writes through the shallow copy show in the original slice: exactly the hysteria ports change |
| ConfigBuilder.ApplyHysteriaListenPort | internal/xray/config.go:55-68 | nothing for a port of zero or less; else the ports change in place and no object moves |
| ConfigBuilder.Build | internal/xray/config.go:21-51 | nothing that existed is written, every object of the result is new, and the result is what the tree function says, errors included |
| ConfigLaws.BuildFailsExactlyOnReservedTags | internal/xray/config.go:21-28 | which error is given, if and only if which reserved tag occurs in an inbound or outbound |
| ConfigLaws.BuildFrame | internal/xray/config.go:30-51 | every path other than the containers, the seven flags and the hysteria ports keeps its value, except below a replaced non-map |
| ConfigLaws.BuildForces | internal/xray/config.go:30-49 | the seven flags and the hysteria ports have the promised values |
| ConfigLaws.PortsExactly | internal/xray/config.go:55-68 | for every index, the port after Build is the builder's if that is positive and the protocol at that index is the string "hysteria", else what it was |
| ConfigLaws.BuildAbsorbs | internal/xray/config.go:21-68 | a second build forgets the first if and only if it sets the port, or the first set none, or setting it changed nothing |
| ConfigLaws.BuildIsIdempotent | internal/xray/config.go:21-51 | building twice is building once |
| Users.SwapAt | internal/controller/handler_controller.go:68-94 | a removal loop and the additions after it leave each inbound with (old minus removed) plus the new hash where admitted |
| Users.SwapKeepsTracked | internal/state/inbounds.go:65-88 | only known inbounds have users, and neither an empty tag nor an empty hash is recorded |
| Users.TrackedExactly | internal/controller/handler_controller.go:42-137 | over any series of AddUser, AddUsers, RemoveUser(s) and SetXrayStarted a hash is tracked at an inbound if and only if some request put it there and no later one dropped it, or it was there and none dropped it; the tracking invariant is kept |
| Users.HandleTracks | internal/controller/handler_controller.go:31-203 | one such request, with any failures: what is tracked where afterwards, as an equivalence |
| Survival.PresentExactly | internal/state/inbounds.go:65-88 | what a series of additions and removals leaves: the last addition that no later removal undid |
| Users.AdmittedExactly | internal/controller/handler_controller.go:75-94 | the admitted inbounds are the non-empty tags of the items the client accepted |
| Users.AddUserAt | internal/controller/handler_controller.go:42-97 | the state after AddUser inbound by inbound, for every pattern of client failures |
| Users.AddUserKeepsTracked | internal/controller/handler_controller.go:42-97 | AddUser keeps the tracking invariant |
| Users.RotationLeaves | internal/controller/handler_controller.go:54-94 | in a chain of requests each naming the one before, from any state, a hash is tracked if and only if its request was accepted there or it was there at first and not removed by the first request, and the next request did not reach its removal loop |
| Users.RotationLeavesNoResidue | internal/controller/handler_controller.go:54-94 | if all reach it, each inbound's hashes are those at first, minus what the chain replaces, plus the last hash where its request was accepted, from any state |
| Users.AddUsersTracksExactly | internal/controller/handler_controller.go:102-140 | which hashes are tracked where after a bulk request, as an equivalence |
| Users.BulkStepTracks | internal/controller/handler_controller.go:122-138 | after any number of users of a bulk request a hash is where the last user to bring it was accepted and no later one dropped it |
| Users.ForgottenEverywhere | internal/controller/handler_controller.go:318-332 | removed users are tracked nowhere whatever the core answered, and nobody else is affected |
| HandlerSpec.AdditionsExactly | internal/controller/handler_controller.go:74-97 | success means some item was accepted; the error is that of the first refusal |
| HandlerSpec.FirstOfAll | internal/controller/handler_controller.go:84-97 | if no item was accepted the error is the first item's |
| HandlerSpec.RemovalsExactly | internal/controller/handler_controller.go:318-332 | a removal succeeds if and only if some inbound let go, and reports an error if and only if some did not |
| HandlerSpec.AddUsersReplyExactly | internal/controller/handler_controller.go:117-147 | a bulk addition succeeds if and only if it has no users or some item was accepted; else the error is the first item's, or a general one if there are no items |
| HandlerSpec.RemoveAllExactly | internal/controller/handler_controller.go:193-203 | several users are removed successfully if and only if every one is let go by some inbound; else the error is the first inbound's for the first user who is not |
| HandlerLaws.AddUserReplyExactly | internal/controller/handler_controller.go:31-97 | AddUser succeeds if there is no item or some item was accepted; else the error is the first item's, or that the core is down |
| HandlerLaws.RemoveReplyExactly | internal/controller/handler_controller.go:318-332 | RemoveUser succeeds if and only if some inbound let go, and its error is the first refusal |
| HandlerLaws.AddUserCallsExactly | internal/controller/handler_controller.go:52-94 | every call of AddUser outside the state, in order, with the look-up and the drops only for a user with a previous hash |
| HandlerLaws.AddUsersCallsExactly | internal/controller/handler_controller.go:122-138 | every call of AddUsers, user by user |
| HandlerLaws.RemoveUsersCallsExactly | internal/controller/handler_controller.go:193-201 | every call of RemoveUsers, user by user |
| HandlerLaws.AddUserTracksExactly | internal/controller/handler_controller.go:54-94 | which hashes are tracked where after AddUser, by its items, verdicts and hashes alone |
| HandlerLaws.AddUserLearnsExactly | internal/controller/handler_controller.go:42-45 | which inbounds are known after AddUser, whether or not the core is up |
| HandlerLaws.AddUserRecordsExactly | internal/controller/handler_controller.go:42-45 | the protocol of an inbound is then that of the last item for it that has one |
| HandlerLaws.AddUsersLearnsExactly | internal/controller/handler_controller.go:108-113 | which inbounds are known after AddUsers, whether or not the core is up |
| HandlerLaws.AddUsersRecordsExactly | internal/controller/handler_controller.go:122-131 | protocols are recorded in the order of the users and their items, accepted or not, but only if the core is up |
| HandlerLaws.RemoveExactly | internal/controller/handler_controller.go:149-203 | a removal takes the users' hashes from every inbound if the core is up, and changes nothing else |
| HandlerLaws.AdditionsKeepRest | internal/controller/handler_controller.go:31-147 | additions leave flags, version, configuration and hashes alone |
| HandlerSpec.SwapStepByStep | internal/controller/handler_controller.go:68-94 | the two loops, call by call, amount to one swap |
| HandlerSpec.BulkStepByStep | internal/controller/handler_controller.go:122-138 | the same for one user of a bulk request |
| HandlerSpec.ForgetEachUserIsForgetUsers | internal/controller/handler_controller.go:193-201 | the removal loops of several users, call by call, remove each hash everywhere |
| HandlerController.HandlerController.AddUser | internal/controller/handler_controller.go:31-97 | new state, answer, and the calls made in order: look up addresses, remove, drop, add |
| HandlerController.HandlerController.AddUsers | internal/controller/handler_controller.go:102-147 | the same for a bulk request; tags become known even if the core is down |
| HandlerController.HandlerController.RemoveUser | internal/controller/handler_controller.go:149-171 | success without asking the core if no inbound is known; else the hash is forgotten everywhere |
| HandlerController.HandlerController.RemoveUsers | internal/controller/handler_controller.go:173-203 | success if and only if every user was let go by some inbound; else the first error of the first user who was not |
| HandlerController.HandlerController.RemoveFromAllKnownInbounds | internal/controller/handler_controller.go:318-332 | one call for each known inbound in order, and the hash dropped from all of them |
| StatNames.SplitExactly | internal/xray/stats.go:56-73 | splitting at the leftmost separators is the inverse of joining, for exactly the parts that cannot be misread |
| StatNames.TrafficNamesExactly | internal/xray/stats.go:56-65 | the parser accepts exactly the printed names of readable tags |
| StatNames.TrafficNamesDiffer | internal/xray/stats.go:5-13 | printing is injective in prefix, tag and direction |
| StatNames.TrafficRoundTrip | internal/xray/stats.go:5-65 | reading back a printed name gives its tag if and only if the tag is readable and the prefix is the one asked for; else it is rejected |
| StatNames.OnlineNamesExactly | internal/xray/stats.go:67-73 | the same equivalence for online names |
| StatNames.OnlineRoundTrip | internal/xray/stats.go:8-73 | the same round trip for online names |
| StatNames.KindsApart | internal/xray/stats.go:56-73 | no name is read as two kinds of counter |
| StatsSpec.ListedExactly | internal/xray/core.go:393-424 | a tag is listed if and only if it is readable and has a counter in one of the directions |
| StatsSpec.BulkAgreesWithPoint | internal/xray/core.go:313-457 | bulk reports are strictly sorted and say of each listed tag what the point read says; users without traffic are left out |
| StatsSpec.VisitOne | internal/xray/core.go:399-415 | visiting one more counter in any order adds it to its own tag and direction |
| StatsSpec.ResetLeavesOtherKinds | internal/xray/core.go:319-335 | a resetting bulk read leaves every counter and report of the other kinds untouched |
| StatsSpec.ResetClearsItsKind | internal/xray/core.go:399-415 | the next report of its own kind lists the same tags without traffic |
| StatsSpec.StepConserves | internal/xray/core.go:459-469 | one count or read: what a resetting read reports is what the counter loses |
| StatsSpec.TrafficIsConserved | internal/xray/core.go:313-469 | over any series of counts and reads, what was counted is what resetting reads reported plus what is left |
| Stats.StatsManager.CounterValue | internal/xray/core.go:459-469 | the value, zero for a missing counter, and the reset |
| Stats.StatsManager.TagStats | internal/xray/core.go:373-391 | both directions of one tag, and the reset of both counters |
| Stats.StatsManager.VisitCounters | internal/xray/core.go:393-415 | the visit in any order gives the report and resets exactly its kind |
| Stats.StatsManager.AllTagStats | internal/xray/core.go:393-457 | the sorted report |
| Stats.StatsManager.UsersStats | internal/xray/core.go:313-347 | the sorted report without users who have no traffic |
| Stats.StatsManager.OnlineIPList | internal/xray/core.go:476-518 | a user's addresses in order |
| Stats.StatsManager.OnlineUsersIPList | internal/xray/core.go:480-503 | each listed user once, in order, with the addresses the single query gives, whatever the order and repetition of the raw names |
| Stats.UsersExactly | internal/xray/core.go:484-490 | which raw names count, and for whom |
| StatsLaws.ParsesInFull | internal/xray/stats.go:5-65 | the names the parser accepts, written out |
| StatsLaws.PointReadInFull | internal/xray/core.go:373-391 | the two counters a point read returns, by name |
| StatsLaws.BulkReadInFull | internal/xray/core.go:313-424 | the rows of a bulk report: tag and both values by counter name, as an equivalence |
| StatsLaws.BulkResetInFull | internal/xray/core.go:319-335 | a resetting bulk read sets exactly the counters of its kind to zero |
| StatsLaws.AddressesInFull | internal/xray/core.go:476-518 | a user's addresses are those of the online map of that name, in order |
| StatsLaws.OnlineUsersInFull | internal/xray/core.go:480-503 | which users are listed with which addresses, as an equivalence |
| Text.TrimCuts | internal/config/env.go:227-233 | trimming cuts a piece out of the text with nothing blank at its ends |
| Text.LinesOfUnlines | internal/config/env.go:229-244 | splitting undoes joining for lines without a newline |
| Text.UnlinesOfLines | internal/config/env.go:229-244 | joining undoes splitting |
| Pem.NormalizePEM | internal/config/env.go:224-245 | the loop computes the specified text |
| Pem.CollapseIsTidy | internal/config/env.go:230-243 | the loop leaves trimmed lines, no two adjacent ones blank |
| Pem.ResultLines | internal/config/env.go:227-244 | the final TrimSpace has nothing left to do: the result has exactly the collapsed lines |
| Pem.NormalizedIsNormal | internal/config/env.go:224-245 | no literal backslash-n, no CRLF, lines trimmed, no adjacent blank lines, no blank first or last line |
| Pem.NormalFormsAreTheFixedPoints | internal/config/env.go:224-245 | normalising changes nothing if and only if the text is in that form |
| Pem.NormalizingTwice | internal/config/env.go:224-245 | normalising is idempotent |
| Pem.CanonBase64 | internal/httpapi/tls.go:84-98 | the nested loops compute the specified reduction |
| Pem.CanonIsBase64 | internal/httpapi/tls.go:92-95 | only the alphabet of section 4 of RFC 4648 and the padding character are left |
| Pem.CanonIgnoresLayout | internal/httpapi/tls.go:67-98 | the reduced text of a normalised value is that of the raw value with each literal backslash-n read as a newline |
| PemLaws.ReplacesJoined | internal/config/env.go:225-226 | replacing a pair of characters joins by newlines the parts that were joined by the pair |
| PemLaws.UnescapeExactly | internal/config/env.go:225 | every value is such a join by the literal backslash-n, and all parts are kept |
| PemLaws.NormalizedExactly | internal/config/env.go:224-245 | the result has exactly the visible lines of the unescaped value, trimmed and in order, and one blank line between two of them where there was any |
| PemLaws.EscapedLinesAreLines | internal/config/env.go:224-245 | the one-line form of a text is normalised to the same as the text and reduced to the base64 text of its lines |
| PemLaws.KeepPicks | internal/httpapi/tls.go:92-95 | exactly the characters of the base64 alphabet and the padding are kept, in order |
| PemLaws.CanonPicks | internal/httpapi/tls.go:84-98 | the reduced text is made of exactly those characters of the lines that do not begin with five dashes, in reading order |
| ContractDiff.Compare | internal/contractdiff/diff.go:17-53 | the three lists of the difference, independent of the order the maps are ranged over |
| ContractDiff.LastEntryWins | internal/contractdiff/diff.go:18-26 | the last entry for a path decides |
| ContractDiff.ListsAreSortedAndDisjoint | internal/contractdiff/diff.go:28-52 | each list strictly sorted, no path in two of them |
| ContractDiff.PatchLaw | internal/contractdiff/diff.go:17-53 | applying the difference to the baseline row by row gives the current manifest |
| ContractDiff.PatchFits | internal/contractdiff/diff.go:28-48 | what is deleted or changed is in the baseline with the hash named, what is added is not |
| ContractDiff.NoChangesExactlyWhenEqual | internal/contractdiff/diff.go:55-57 | HasChanges is false if and only if the manifests agree on every path |
| ContractDiff.SwappedDifference | internal/contractdiff/diff.go:17-53 | comparing the other way round swaps added with deleted and flips each change |
| Sorting.SortSorts | internal/contractdiff/diff.go:50-52 | sorting rows with distinct keys puts them in strictly increasing order |
| Sorting.LessExactly | internal/contractdiff/diff.go:50-52 | the order is that of the first difference: there one text ends or has the smaller character |
| Sorting.ListsIsUnique | internal/xray/core.go:416-423 | a map has one strictly sorted list only, so the order of a range leaves no trace |
| Sorting.ListMap | internal/xray/core.go:505-518 | ranging, appending and sorting gives that list |

## Left out

- xray-core itself, its protobuf accounts and `BuildProtocolUser`: calls into it are outcomes chosen by the environment; credentials of users are not part of this model.
- Fairness: `RunsAreBounded` and `NoDeadlock` show that the system comes to rest if every started call eventually returns; that xray-core's calls return is not claimed.
- The flags while a Stop overlaps a Start: the code writes them in separate lock regions and promises nothing; when they end up right is `FlagsSurviveExactly`.
- XrayController.XrayController.Start: one request at a time; the reaper's later close of a timed-out instance, and Stops in the middle, are in the state machine of `Lifecycle`, which `LifecycleRefinement` ties to it.
- Interleaved handler requests: the program locks the state call by call, not request by request; here each handler request runs alone.
- Encoding answers as JSON: the caller of `GetConfig` holds the object graph instead.
- Configuration values that JSON cannot spell: leaves are JSON scalars, and typed nil maps inside a configuration and cyclic values do not occur.
- Stats.StatsManager.CounterValue: a read and its reset are one step, so increments that fall between `Value` and `Set(0)` are not modelled; counters are unbounded integers where the program has int64.
- Invalid UTF-8: texts are sequences of Unicode characters.
- The error of a statistics query when the core is not running, `onlineStatus`, and system statistics: one branch each, or I/O.
- `DropUsersConnections`, `DropIPs` and the conntrack dropper: loops over I/O whose failures are only logged.
- HTTP routing, JSON and zstd decoding, JWT, TLS setup, HKDF and X.509: library plumbing around what is modelled.
- Geodata downloads and geocheck: I/O; the geocheck guard repeats the start guard.
- Network rates and uptime: floating point arithmetic on clock readings.
- Log tables, colours and redaction; environment parsing: presentation and one-branch checks.
- `HashesFromContract`: a copy, field by field.
