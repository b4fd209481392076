# RunCD: a verified model of its protocols and decisions

RunCD is a GitOps controller for Cloud Run. Its replicas share a Postgres database, elect a leader through a lease row,
reconcile every (application, project) unit against a manifest, deploy under a per-unit lock, keep an audit log, and
notify through a debounce table. This project models those mechanisms in Dafny and proves what they promise.

Two styles are used, following the code:

- **Protocols over shared rows** (deploy lock and audit log, leader lease, debounce rows, shared lookups) are machines: a
  state, a list of actions, `Enabled` and `Apply`. A statement about a run is about every list of actions the machine can
  execute, with any number of attempts that interleave, lose replies, time out, crash and finish late.
- **Code that updates things step by step** (the reconciler and evaluator methods, the deploy edits, the unit map, the
  loading, merging and expansion loops, the election loop) is imperative Dafny, proved against specification functions
  about which the results are then proved. `Reconciler.Database` and `Notifier.Table` hold the shared rows as fields; each
  statement is one step of the corresponding machine, and between any two statements of one attempt an arbitrary script
  of other attempts' actions runs.

## Modules

| Module | Part of RunCD |
|---|---|
| `DeployProtocol`, `DeploySafety`, `Applications` | locks, audit rows and the `applications` upsert |
| `Reconcile`, `Reconciler` | one pass: its decisions as functions, and the methods that carry them out |
| `Lease`, `Leadership` | the leader lease, its callback and the terms of leadership |
| `NotifyProtocol`, `NotifySafety`, `NotifyRules`, `Notifier` | claims, deliveries and recoveries; rule keys; the evaluator |
| `ImageRef`, `EnvVars`, `Diff`, `Manifest`, `CloudRun` | what a deploy writes, what a read recovers, what a diff compares |
| `SyncWindow`, `Config`, `Folders`, `Expander`, `Units` | from the root configuration to the unit map |
| `Semver`, `Registry` | version strings and tag resolution |
| `Rbac` | scopes and grants |
| `Caches`, `CacheSources` | the manifest and folder caches, and the calls that use them |
| `Wrappers`, `Sequences`, `Strings` | shared vocabulary |

## Assumptions

- All replicas and the database read one clock. A statement takes effect at one instant; lock and lease statements may
  be evaluated at an earlier time of their own call, every other statement reads the time of its commit.
- A call bounded by a context has no effect after the context's deadline, and a deploy call that returned success has had its
  effect. One that returned an error early, because its context was cancelled, may still take effect until the deadline.
- Lock tokens of attempts that have not finished with the lock are distinct; holder ids of replicas are distinct.
- A lease holder acts at most `slack` after it is due. The slack is a parameter of every lease result.
- A confirm, revert, clear or release of a notification lands within the claim TTL of its attempt or not at all, and the
  rows of `healthDegraded` rules are used by no other rule.
- Digests listed by a registry do not contain `@`.
- Version strings follow sections 2, 9, 10 and 11 of Semantic Versioning 2.0.0, with the short forms `v1` and `v1.2`.

## Findings

- The rule "interval + query timeout ≤ TTL" for the lease is right only while one claim fits inside one interval. The exact
  condition, with slack, is `Lease.Safe`; with 10s/5s/30s it tolerates a slack of up to 6.67s
  (`Lease.SingleLeaderIffSafe`, `Lease.DeployedSlack`, `Lease.IntervalPlusTimeoutIsNotEnough`).
- The order of final `applications` writes is not the order of deploys, because that write happens after the lock is
  released (`DeploySafety.FinalWritesMayBeReordered`). It is exactly when the earlier attempt is past writing at the moment
  the later one calls deploy (`DeploySafety.FinalWritesKeepDeployOrderIff`).
- Deploys take effect in the order of their audit rows and one at a time as long as the lock is held. A deploy that returns an
  error early gives the lock up while its request may still take effect, so that order can be lost
  (`DeploySafety.LateLandingIsReachable`). It is kept exactly when, as the later attempt calls deploy, no request of the
  earlier one is outstanding or the later attempt is past its deadline (`DeploySafety.LandingsKeepRowOrderIff`).
- A deploy converges except in one family: the manifest says `service` with managed, declared traffic, and the resource
  found under its name is a worker pool (`CloudRun.DeployConverges`, `CloudRun.TrafficOnWorkerPoolStaysOutOfSync`).
- A failing folder equals an unlisted one unless it is the environment's only folder and the explicit list repeats a
  project, which loading refuses (`Folders.FailedFolderIsOmitted`).
- Release tags and per-service tags are independent exactly when the image name followed by a hyphen does not itself read
  as a release, which takes a plus sign in the name (`Registry.ServiceTagsAreApartIff`, `Registry.SomeNamesReadAsReleases`).
- Looking a unit up by application and project is exact exactly when no listed project holds a slash
  (`Units.FindIsExactIff`, `Units.SlashExample`).
- `HasAnyGrant` and the per-unit decision differ on an empty folder scope, which could match a unit but is no grant
  (`Rbac.EmptyFolderIsNoGrant`).
- Loading does not make notification keys distinct: two rules may share a name, and a name may spell an unnamed rule
  (`NotifyRules.KeysEqualIffSameRow`, `NotifyRules.ValidRulesMayShareRow`). A recovery whose row is its own marker then blocks
  itself (`Notifier.SharedRowBlocksRecovery`); the notification machine starts none, so its results are about distinct keys.

## Model

| member | source | states |
|---|---|---|
| DeploySafety.DeployMutualExclusion | internal/reconcile/reconcile.go:595-642 | in every interleaving at most one attempt per unit has a deploy request that can still take effect and has not yet given its lock up, crashed attempts included |
| DeploySafety.CallingIsInside | internal/reconcile/reconcile.go:595-661 | every attempt inside its deploy call, or crashed there, is one of those until its deadline |
| DeploySafety.AtMostOneHolder | internal/reconcile/reconcile.go:602-642 | the whole section from lock to release is exclusive while the attempt's deadline has not passed |
| DeploySafety.LateReleaseIsHarmless | internal/reconcile/reconcile.go:724-730 | a release with an old token never removes the row of an attempt that is still inside |
| DeploySafety.StuckLockIsReclaimable | internal/reconcile/reconcile.go:700-716 | once one lock TTL has passed, whatever was left behind, any attempt can claim the row |
| DeploySafety.ClaimIsExact | internal/reconcile/reconcile.go:700-716 | the lock statement claims the row exactly if there is none or it has expired, and then for two minutes |
| DeploySafety.ReleaseIsExact | internal/reconcile/reconcile.go:724-730 | a release that commits removes the attempt's own row and nobody else's |
| DeploySafety.EveryCallIsAudited | internal/reconcile/reconcile.go:650-661 | each deploy call has exactly one audit row, inserted before it and after the applications row, with the digest it deploys |
| DeploySafety.ClosedRowsAreTruthful | internal/reconcile/reconcile.go:661-692 | a row says succeeded only if deploy returned success and took effect, failed only if it returned an error, and closes after the return |
| DeploySafety.RowChangesOnlyOnClose | internal/reconcile/reconcile.go:750-757 | an audit row is changed by its owner's closing step only, and only away from in_progress |
| DeploySafety.ClosedRowIsFinal | internal/reconcile/reconcile.go:750-757 | a row leaves in_progress at most once in any run |
| DeploySafety.DeployOrderIsRowOrder | internal/reconcile/reconcile.go:655-661 | for one unit, deploys that take effect while their locks are held do so in the order of their audit rows, the first before the second inserts its row |
| DeploySafety.SuccessLandsInside | internal/reconcile/reconcile.go:661-692 | every deploy that returned success is one of those |
| DeploySafety.LandingsKeepRowOrderIff | internal/reconcile/reconcile.go:633-670 | from every reachable state in which b, with the later row, is about to deploy: all continuations keep the order of landings if and only if no request of a may still land, or b is past its deadline |
| DeploySafety.LandingsCanSwap | internal/reconcile/reconcile.go:633-670 | otherwise b can be made to take effect first |
| DeploySafety.LateLandingIsReachable | internal/reconcile/reconcile.go:633-670 | a run that gets there: an early error, a release, and a second attempt about to deploy |
| DeploySafety.LoserLeavesNoTrace | internal/reconcile/reconcile.go:629-632 | an attempt that lost the lock has written nothing and can write nothing |
| DeploySafety.ApplicationsWritesAreOwned | internal/reconcile/reconcile.go:770-805 | an applications row changes only by a logged statement of an attempt on that unit which did not lose the lock |
| DeploySafety.FinalWritesMayBeReordered | internal/reconcile/reconcile.go:200-218 | a run in which the last applications write comes from the earlier deploy |
| DeploySafety.FinalWritesKeepDeployOrderIff | internal/reconcile/reconcile.go:200-218 | from every reachable state in which b is about to deploy after a did: all continuations keep the order of the final writes if and only if a is past writing |
| DeploySafety.FinalsCanSwap | internal/reconcile/reconcile.go:633-642 | while a can still write, b can be run to its own final write first, its deploy taking effect if in time |
| DeployProtocol.StepKeepsInv | internal/reconcile/reconcile.go:595-757 | every step of every attempt, crashes and lost replies included, keeps the protocol invariant |
| Applications.UpsertRefinesWriteLog | internal/reconcile/reconcile.go:770-805 | the row summarises the whole history of writes: since columns, live image and manifest columns, each by its own rule |
| Applications.SinceIsStartOfTrailingRun | internal/reconcile/reconcile.go:797-798 | status_since and health_since are the time of the first write of the maximal trailing run of that value |
| Applications.ManifestColumnsComeFromOneWrite | internal/reconcile/reconcile.go:779-794 | desired image, track, version, repository and resource type come from one write: the last with a desired image, or the first |
| Applications.LiveImageIsLastNonNull | internal/reconcile/reconcile.go:782 | live_image is the last one that was not NULL |
| Reconcile.GateIsExact | internal/reconcile/reconcile.go:303-518 | a pass deploys if and only if manifest, override, preconditions, live read, observe mode, dry run, force, drift, auto and windows all say so |
| Reconcile.AssessmentIsExact | internal/reconcile/reconcile.go:303-497 | a pass compares desired and live state exactly when everything comparable is in place, and otherwise ends blocked with an error |
| Reconcile.AssessmentBlames | internal/reconcile/reconcile.go:303-497 | a pass that cannot compare reports the first reason in order of precedence, and the live image and health as far as they were read |
| Reconcile.ObservedIsWithheld | internal/reconcile/reconcile.go:500-512 | a comparable pass that does not deploy has no error, unless it was forced on a unit that is only observed |
| Reconcile.StatusIsBacked | internal/reconcile/reconcile.go:493-518 | on every path Synced means that the last successful live read of the pass agrees on every managed field, and OutOfSync that it does not |
| Reconcile.AfterDeployIsBacked | internal/reconcile/reconcile.go:661-692 | failed deploy, failed re-read and lost audit write all keep the status tied to the last successful read |
| Reconcile.ConcludedSaysWhy | internal/reconcile/reconcile.go:470-518 | a blocked result carries an error, and one that entered the deploy section blames exactly the step at which it stopped, or none |
| Reconcile.DryRunPreviews | internal/reconcile/reconcile.go:290-301 | a dry run returns the bare assessment; force opens the gate for exactly the comparable, unobserved units; auto needs drift and windows besides |
| Reconcile.DeployedPassConverges | internal/reconcile/reconcile.go:615-687 | a deploy that took effect and was re-read ends Synced exactly unless a service's managed, declared traffic met a worker pool; an unmanaged digest keeps its live value |
| Reconcile.DeployedJobPassIsSynced | internal/reconcile/reconcile.go:446-457 | the same for a job, with its own spec, read and deploy, always Synced |
| Reconcile.DesiredDigestIsBare | internal/reconcile/reconcile.go:328-352 | the desired digest can be pinned, whether the manifest gives it or an override resolves it |
| Reconcile.DesiredIsAskedFor | internal/reconcile/reconcile.go:328-352 | the desired digest is what the unit asks for: the first tag of its track, the best release of its version, or without either the manifest's own; an override is resolved exactly if it selects something |
| Reconcile.HandedIsAskedFor | internal/reconcile/reconcile.go:354-397 | what is handed to deploy carries that digest, or the live one of an unmanaged image, and the managed rest of the manifest |
| Reconcile.ResultReports | internal/reconcile/reconcile.go:303-352 | on every path the result reports the unit, the manifest's type, repository and selectors, the override's selectors if there is one, and the digest asked for |
| Reconcile.WritesTheResult | internal/reconcile/reconcile.go:770-805 | the columns written are those of the result, the status by its name |
| Reconcile.TargetDiffsAlike | internal/reconcile/reconcile.go:605-617 | substituting the live digest for an unmanaged one never changes a diff |
| Reconcile.SubtractContents | internal/reconcile/reconcile.go:540-555 | a field is managed for a unit exactly when it is managed and not ignored |
| Reconcile.EffectiveManagedFields | internal/reconcile/reconcile.go:540-555 | the loop computes that subtraction, in order |
| Reconcile.RequiredContents | internal/reconcile/reconcile.go:560-575 | a precondition is required exactly when its type:name is not ignored |
| Reconcile.FilterPreconditions | internal/reconcile/reconcile.go:560-575 | the loop computes that filter, in order |
| Reconcile.CheckPreconditions | internal/precondition/precondition.go:22-42 | the error names the first precondition that does not hold; an unknown type never holds |
| Reconcile.FirstFailureIsFirst | internal/precondition/precondition.go:22-42 | the precondition named is the first of the manifest that counts and does not hold |
| Reconcile.PreconditionFailureIsReported | internal/reconcile/reconcile.go:354-416 | a failed precondition is the error reported, over unsupported fields and a missing resource, and blocks the pass |
| Reconcile.PreconditionsPass | internal/reconcile/reconcile.go:354-356 | the check passes exactly when every precondition that is not ignored holds |
| Reconcile.BaseIsLastElement | internal/reconcile/reconcile.go:344 | the image name handed to tag resolution is the last element of the repository path |
| Reconciler.Database.AcquireLock | internal/reconcile/reconcile.go:700-716 | a claimed row carries the attempt's token and outlives its deadline; an error means a failed or late statement, and a loss that the row is claimed |
| Reconciler.Database.Upsert | internal/reconcile/reconcile.go:770-805 | succeeds exactly if the statement commits in time, and leaves the written values in the row |
| Reconciler.Database.InsertSyncEvent | internal/reconcile/reconcile.go:732-740 | succeeds exactly if the statement commits in time, and leaves one in_progress row of this attempt with its digest |
| Reconciler.Database.Deploy | internal/reconcile/reconcile.go:661-670 | the call may take effect until the deadline, also after an early error; it reports success only if it did, and always if it lands in time and the service says so |
| Reconciler.Database.UpdateSyncEvent | internal/reconcile/reconcile.go:750-757 | succeeds exactly if the statement commits; then the attempt's own audit row says how its deploy returned |
| Reconciler.Database.ReleaseLock | internal/reconcile/reconcile.go:724-730 | afterwards the row is not held by this token |
| Reconciler.Database.WriteResult | internal/reconcile/reconcile.go:770-805 | succeeds exactly if the statement commits and is acknowledged; whenever it commits, the row holds the result and the write is logged as this attempt's |
| Reconciler.Reconciler.DeploySyncUnit | internal/reconcile/reconcile.go:595-693 | with everything else interleaved: exactly the statements for the progress reported, in order, with the row written and the state deployed; each way of stopping has its cause among the statements or in a passed deadline; record, digest and result match |
| Reconciler.WillingWorldDeploys | internal/reconcile/reconcile.go:595-693 | if every statement commits in time and the service accepts the deploy, a section ends deployed and audited, or at a held lock |
| Reconciler.Reconciler.ApplyLiveState | internal/reconcile/reconcile.go:470-518 | folds the live read in and enters the deploy section exactly when the specification says so; otherwise the database is untouched |
| Reconciler.Reconciler.ReconcileUnit | internal/reconcile/reconcile.go:303-462 | deploys exactly when the gate is open, returns the specified result, and leaves the database alone, issuing nothing, when it does not deploy |
| Reconciler.Reconciler.DryRun | internal/reconcile/reconcile.go:295-297 | no change to the database on any path |
| Reconciler.Reconciler.ManualSync | internal/reconcile/reconcile.go:237-257 | forced pass: the statements of its section, then one final write of the result, which succeeds exactly if it commits and then shows in the row; after a lost lock only the lock statement, and nothing in the database is due to the attempt |
| Reconciler.Reconciler.SyncOne | internal/reconcile/reconcile.go:190-222 | one automatic pass, with the same statements and the same guard; failed exactly if a final write was due and did not succeed, which is noted in the result only if it has no error yet |
| Reconciler.Reconciler.RunOnce | internal/reconcile/reconcile.go:170-229 | whatever the order of completion, every pass issues its own statements in full, slot i holds unit i's own result, and an error is returned exactly when some pass that did not lose its lock failed to write its result |
| Reconciler.ResultsMatchRecords | internal/reconcile/reconcile.go:644-692 | what a pass reports about its deploy section is what the database and the log hold about its attempt |
| Reconciler.LeadsKeepsReachable | internal/reconcile/reconcile.go:595-757 | every state these methods leave is a state of a protocol run, so all results about runs apply |
| Lease.SingleLiveLeader | internal/leader/lease.go:46-126 | under the safety condition no run reaches two replicas that both believe they lead |
| Lease.ClaimIsExact | internal/leader/lease.go:46-68 | a claim that reaches the row succeeds exactly if its replica holds the row or the row has expired, and then renews it for a whole TTL; another holder's live row is refused and left alone |
| Lease.LeaderRenews | internal/leader/lease.go:46-68 | in every run under the safety condition a leader's renewal succeeds, also when its own row has just expired |
| Lease.AnsweredLeaderKeepsLeading | internal/leader/lease.go:77-126 | leadership is stable: a leader that nobody stops and whose claims are answered leads through any continuation |
| Lease.SingleLeaderIffSafe | internal/leader/lease.go:12-24 | that condition is exact for any number of replicas: without it two or more can reach a state with two leaders |
| Lease.UnsafeParamsAllowTwoLeaders | internal/leader/lease.go:46-68 | the concrete overtaking run for every unsafe choice of interval, timeout, TTL and slack, among any two or more replicas |
| Lease.DeployedSlack | internal/leader/lease.go:12-24 | for 10s, 5s and 30s the condition is a slack of at most 6.67s |
| Lease.IntervalPlusTimeoutRule | internal/leader/lease.go:12-24 | interval plus timeout within the TTL, with slack, is the right rule while a claim fits inside an interval |
| Lease.IntervalPlusTimeoutIsNotEnough | internal/leader/lease.go:12-24 | and not otherwise |
| Leadership.ChangesAlternate | internal/leader/lease.go:82-100 | reports strictly alternate starting with true, and the last one is the latest outcome |
| Leadership.Attempt | internal/leader/lease.go:82-100 | one claim reports exactly a change of leadership, and the context follows the report |
| Leadership.Run | internal/leader/lease.go:77-126 | never returns with true as the last report; stops exactly at the first failure or at the end of the context |
| Leadership.RunLeaderElection | cmd/controller/main.go:444-479 | a run is restarted exactly after a claim error, until the process stops or a run ends otherwise; the callback is told the changes of every run made, in order; across restarts the context equals the last report, contexts of earlier terms stay cancelled, and there is one pause per restart, by the backoff |
| Leadership.ElectionIsDetermined | cmd/controller/main.go:444-479 | for given claims, ends and stops there is only one number of runs, of events seen by each, and one way for the loop to end |
| Leadership.BackoffIsBounded | cmd/controller/main.go:444-479 | pauses double from one second to at most thirty and start over after a long run |
| Leadership.LeadershipContext.Set | cmd/controller/main.go:504-515 | ends the term in force and starts a new one, cancelled at once when not leading |
| Leadership.LeadershipContext.Current | cmd/controller/main.go:518-522 | returns the context of the current term |
| NotifySafety.OneClaimHolder | internal/notify/notify.go:362-428 | at most one attempt holds a running claim on a row, as a delivery or as a recovery |
| NotifySafety.DeliveryClaimIsExact | internal/notify/notify.go:382-397 | a delivery goes ahead exactly if its row is new, or neither debounced nor claimed, and then holds it for one TTL |
| NotifySafety.RecoveryClaimIsExact | internal/notify/notify.go:281-302 | a recovery goes ahead exactly if its marker is set and not claimed, and then holds it for one TTL |
| NotifySafety.EndsAreExact | internal/notify/notify.go:304-426 | confirming stamps the row, clearing resets it, giving a claim back keeps its time; each frees the row at once |
| NotifySafety.DeliveriesAreDebounced | internal/notify/notify.go:382-426 | two confirmed deliveries on a row with no clear between them are more than the interval apart |
| NotifySafety.InterruptionsHeal | internal/notify/notify.go:344-356 | once one claim TTL has passed, whatever was interrupted, only the debounce column decides |
| NotifySafety.MarkerMovesOnlyOnFinish | internal/notify/notify.go:242-266 | a failed or debounced recovery send leaves the marker unchanged |
| NotifySafety.MarkerClearedOnlyAfterRecoverySent | internal/notify/notify.go:211-319 | a marker returns to the epoch only by an attempt that holds its claim and whose recovery message was sent and confirmed |
| NotifySafety.ClearNeedsDelivery | internal/notify/notify.go:281-302 | between two clears of a marker there is a confirmed delivery on it |
| NotifySafety.ColumnIsHistory | internal/notify/notify.go:382-426 | last_notified_at is exactly what the history of confirmations and clears says |
| NotifyRules.KeysEqualIffSameRow | internal/notify/notify.go:54-66 | when two validated rules debounce on one row |
| NotifyRules.ValidRulesMayShareRow | internal/config/config.go:372-445 | validation accepts two rules of different kinds with one key |
| NotifyRules.DistinctIdsHaveDistinctKeys | internal/notify/notify.go:41-66 | rules with different identifiers have different keys |
| NotifyRules.AcceptedKeysFit | internal/store/migrations/00008_notify_rule_names.sql:15-19 | a rule of a known kind with the threshold it needs is accepted exactly if the debounce table takes its key and its name holds no colon |
| NotifyRules.CheckNotify | internal/config/config.go:372-414 | accepts exactly valid rules with a default sink and usable webhooks |
| NotifyRules.CheckOverride | internal/config/config.go:430-445 | accepts exactly the choices whose sink exists and whose every rule identifier belongs to one rule |
| NotifyRules.CountIsOne | internal/config/config.go:422-444 | a count of one means one rule, neither none nor several |
| Notifier.Evaluator.MaybeNotify | internal/notify/notify.go:362-428 | sent exactly if claim, message and confirmation all succeed in time, an error only if one of them did not, and neither only if the row was debounced or claimed; no error means that no message is left unconfirmed |
| Notifier.Evaluator.SendClaimed | internal/notify/notify.go:399-427 | sent exactly if the sink accepts the message and the confirmation commits within the claim; a failed send reverts the claim instead |
| Notifier.Evaluator.ClaimRecoveryClear | internal/notify/notify.go:281-302 | an error exactly if the statement failed; otherwise either the marker is claimed or it could not be |
| Notifier.Evaluator.Recover | internal/notify/notify.go:233-266 | the recovery protocol of one sibling runs to its end on that marker and that row; it fails only if a statement or the send did, or a claim ran out |
| Notifier.Evaluator.EvalHealthRecovered | internal/notify/notify.go:211-269 | runs exactly one recovery per selected healthDegraded sibling, in order, whatever fails |
| Notifier.Evaluator.Evaluate | internal/notify/notify.go:134-167 | picks the environment's sink and rules and runs exactly the planned attempts in order, each to its end; those without error left no unconfirmed message, and where every statement and send succeeds only an expired claim makes one fail |
| Notifier.ValidOverrideIsHonoured | internal/notify/notify.go:134-149 | with a validated notify section the sink is the one asked for and each rule named selects exactly one |
| Notifier.SharedRowBlocksRecovery | internal/notify/notify.go:233-266 | from any state of the table: a recovery whose own row is its marker is refused its delivery while its claim lasts, and nothing is sent or moved; the machine itself does not start such an attempt |
| Notifier.AcceptedRulesCanShareRow | internal/notify/notify.go:54-66 | accepted rules with one key give a recovery its own marker as row |
| Notifier.PlanExact | internal/notify/notify.go:146-269 | an attempt is planned exactly when a selected rule calls for it, rule by rule in order: a failed deploy, Degraded for that many minutes, OutOfSync without auto-sync for that many hours, or health back with a sibling to recover; no other kind ever does |
| Notifier.PlannedOnce | internal/notify/notify.go:146-269 | a rule is planned at most once, a recovery rule at most once for each rule |
| Notifier.DistinctKeysSeparateMarkers | internal/notify/notify.go:54-66 | pairwise distinct keys keep markers and deliveries on separate rows |
| Notifier.LeadsKeepsReachable | internal/notify/notify.go:362-428 | every state these methods leave is a state of a protocol run |
| ImageRef.PinnedDigestReadsBack | internal/cloudrun/gcp.go:572-667 | for every existing reference the digest written is the digest read, without asking the registry |
| ImageRef.TaggedReferenceReadsItsTag | internal/cloudrun/gcp.go:593-646 | a tagged reference reads as the digest of the first listed tag of that name, and fails exactly if listing fails or there is none |
| ImageRef.UntaggedReferenceReadsLatest | internal/cloudrun/gcp.go:593-646 | an untagged reference, with or without a port, reads as the tag latest of itself |
| ImageRef.BareDigestReadsItself | internal/cloudrun/gcp.go:579-628 | a bare digest reads as itself, and a missing image as nothing |
| ImageRef.FoundTagIsFirst | internal/cloudrun/gcp.go:634-646 | the search by name finds the first tag of that name or fails for want of one |
| ImageRef.LastPinWins | internal/cloudrun/gcp.go:661-667 | pinning again replaces only the digest |
| ImageRef.PinReplacesTag | internal/cloudrun/gcp.go:593-667 | pinning a tagged reference drops the tag and nothing else |
| ImageRef.PinKeepsPort | internal/cloudrun/gcp.go:593-667 | a host with a port keeps it |
| ImageRef.TaggedReferenceSplits | internal/cloudrun/gcp.go:593-600 | a tagged reference splits at its tag separator |
| ImageRef.PortIsNotATag | internal/cloudrun/gcp.go:593-600 | a colon before the last slash separates no tag |
| ImageRef.ResolvedDigestIsBare | internal/cloudrun/gcp.go:618-646 | a resolved live digest can be pinned again |
| EnvVars.BuildEnvVars | internal/cloudrun/gcp.go:785-802 | the list is sorted and holds exactly the given variables and secrets |
| EnvVars.ListingIsUnique | internal/cloudrun/gcp.go:785-802 | there is only one such list, whatever the map order |
| EnvVars.EnvState | internal/cloudrun/gcp.go:758-778 | the loop reads back the variables and the secrets of the first container |
| EnvVars.LastEntriesAreRead | internal/cloudrun/gcp.go:758-778 | the maps read hold the last entry of every name, and are nil instead of empty |
| EnvVars.BuiltEnvReadsBack | internal/cloudrun/gcp.go:758-802 | reading back what was built gives the same maps |
| Diff.ComputeIsAgreement | internal/diff/diff.go:21-58 | Synced exactly when every managed field agrees |
| Diff.MapEqualIsEquality | internal/diff/diff.go:67-96 | the map comparisons are equality of the maps |
| Manifest.ValidateSecrets | internal/manifest/service.go:126-147 | accepts exactly complete, uniquely named entries disjoint from the plain variables, and otherwise names a fault that is there |
| Manifest.Validate | internal/manifest/service.go:94-181 | accepts exactly the valid definitions, and otherwise names a fault that is there |
| Manifest.ImageCheckIsExact | internal/manifest/service.go:94-124 | an image is accepted exactly with a digest of 64 hexadecimal digits, at most one of track and version, and a repository where one is needed |
| Manifest.DesiredStateIsExact | internal/reconcile/reconcile.go:364-397 | the desired state has the digest and exactly the managed ones among share, variables and secrets, of each name the last entry, versions defaulting to latest |
| Manifest.DeployTargetIsExact | internal/reconcile/reconcile.go:605-617 | an image that is not managed keeps the live digest; all else is as desired |
| Manifest.ValidManifestIsDeployable | internal/manifest/service.go:126-181 | every desired state derived from a valid manifest meets the deploy path's needs |
| CloudRun.Store.DeployService | internal/cloudrun/gcp.go:355-393 | in place: only that resource, only its managed parts; which error in which case, and a write that took effect although it failed |
| CloudRun.Store.DeployWorkerPool | internal/cloudrun/gcp.go:395-418 | the same for worker pools, which have no traffic |
| CloudRun.Store.DeployJob | internal/cloudrun/gcp.go:522-543 | the same for jobs, image only |
| CloudRun.Store.GetService | internal/cloudrun/gcp.go:288-315 | reads the service of that name, or else the worker pool, with every error told apart |
| CloudRun.ReadBackReads | internal/cloudrun/gcp.go:288-315 | a read is the first image resolved, the share of a service, and the last entry of every variable and secret |
| CloudRun.ReadJobReads | internal/cloudrun/gcp.go:446-520 | of a job only the image is read |
| CloudRun.SumLatest | internal/cloudrun/gcp.go:669-677 | the loop adds up the share of the latest revision |
| CloudRun.LatestPercentAdds | internal/cloudrun/gcp.go:669-677 | the share is the sum over the targets of the latest revision and of no other |
| CloudRun.DeployReadsBack | internal/cloudrun/gcp.go:355-418 | digest, managed environment and managed traffic read back as deployed |
| CloudRun.DeployConverges | internal/cloudrun/gcp.go:355-418 | for every starting resource, the diff after a deploy is Synced if and only if it is not managed traffic on a worker pool |
| CloudRun.JobDeployConverges | internal/cloudrun/gcp.go:522-543 | a job deploy always converges |
| CloudRun.UnmanagedFieldsUnchanged | internal/cloudrun/gcp.go:355-418 | fields that are not managed read back as before |
| CloudRun.DeployIsIdempotent | internal/cloudrun/gcp.go:355-418 | deploying twice leaves what deploying once left |
| CloudRun.ManifestConverges | internal/reconcile/reconcile.go:364-397 | from a valid manifest of a service or worker pool to a Synced diff, exactly outside that family, unmanaged image included |
| CloudRun.JobManifestConverges | internal/cloudrun/gcp.go:446-543 | from a job's manifest to a Synced diff, always |
| CloudRun.TrafficOnWorkerPoolStaysOutOfSync | internal/cloudrun/gcp.go:395-418 | a resource, a state and the deployed resource of the family that stays OutOfSync |
| SyncWindow.MatchesIsMembership | internal/config/syncwindow.go:15-49 | a valid window matches exactly the instants inside one of its weekly stretches, midnight included |
| SyncWindow.WindowsAllow | internal/config/syncwindow.go:56-76 | no deny matches, and no allow is listed or some allow matches |
| SyncWindow.OrderIsIrrelevant | internal/config/syncwindow.go:56-76 | the answer does not depend on the order of the list |
| SyncWindow.DenyIsFinal | internal/config/syncwindow.go:51-76 | nothing overrides a matching deny |
| Config.MergeIsMonoid | internal/config/config.go:45-64 | merging is associative and idempotent, the empty policy is its unit, and what is merged in last prevails |
| Config.Parse | internal/config/config.go:276-447 | accepts exactly the well-formed configurations, notify section included, and every error names a real problem |
| Config.IgnoreValidIffNamesPrecondition | internal/config/config.go:261-270 | an ignored precondition is accepted exactly if it names one that could be checked |
| Config.CheckNotifySection | internal/config/config.go:372-445 | accepts exactly usable notify sections whose environments choose existing sinks and unambiguous rules |
| Config.CheckCollisions | internal/config/config.go:295-311 | finds a collision exactly if two declared positions have one key |
| Config.CheckEnvironments | internal/config/config.go:312-371 | refuses repeated projects or folders, bad windows and unimplemented settings, over any map order |
| Config.PositionsExact | internal/config/config.go:296-311 | the positions visited are exactly the declared ones, in configuration order |
| Folders.ResolveConfig | internal/folders/resolve.go:55-116 | the merged configuration and each failure once, independent of map order and completion order |
| Folders.ResolveAll | internal/folders/resolve.go:26-39 | every slot gets its own query's answer, whatever finishes first |
| Folders.ResolveMembership | internal/folders/resolve.go:125-147 | an entry for exactly the folders that resolved, an error for exactly the others |
| Folders.MergedProjectsExact | internal/folders/resolve.go:92-112 | explicit projects first, then those of the successful folders in listed order, each at its first occurrence, none lost |
| Folders.MergeFoldersIsIdempotent | internal/folders/resolve.go:55-116 | resolving again with the same answers changes nothing |
| Folders.FailedFolderIsOmitted | internal/folders/resolve.go:100-104 | exactly when a failing folder equals an unlisted one |
| Folders.EnvironmentsAreIndependent | internal/folders/resolve.go:86-114 | an environment depends on its own entry and answers only |
| Expander.Expand | internal/expander/expander.go:38-137 | succeeds exactly on an expandable configuration, with its expansion in order; every error names a real problem |
| Expander.ExpandApp | internal/expander/expander.go:91-133 | one app's units with region by override, environment, default, and the first collision |
| Expander.CheckOverrides | internal/expander/expander.go:64-73 | refuses exactly the overrides of projects outside the environment |
| Expander.CheckExclude | internal/expander/expander.go:74-89 | refuses exactly the excluded projects that are unknown or overridden |
| Expander.ExpansionIsExact | internal/expander/expander.go:53-134 | the declared positions, each once, in the one order there is, with pairwise distinct keys |
| Expander.ExpansionIsDescribed | internal/expander/expander.go:53-134 | every unit is described by the records that declare it: region of the override, else the environment, else the defaults; each sync setting of the environment, else the defaults; selectors of the override; the rest the app's own |
| Expander.CollisionNeedsFolder | internal/expander/expander.go:40-51 | after loading and merging, a collision is between two app entries and needs a folder's project |
| Expander.CollisionIsBetweenApps | internal/expander/expander.go:113-117 | one app alone cannot collide when no project is listed twice |
| Expander.ParsedProjectsAreDistinct | internal/config/config.go:312-327 | after loading and merging no environment repeats a project, and the explicit ones come first |
| Expander.MergingKeepsUnits | internal/folders/resolve.go:92-113 | merging folders changes no unit that was declared before |
| Expander.MergingKeepsReferences | internal/expander/expander.go:64-89 | nor does it invalidate an override or an exclusion |
| Units.DynamicUnits.Set | cmd/controller/main.go:616-624 | replaces the map by the one built from the list |
| Units.DynamicUnits.Find | cmd/controller/main.go:626-631 | with distinct keys and slash-free projects, exactly the listed unit of that application and project; otherwise still a listed unit with that key, or none if there is none |
| Units.LastUnitIsFound | cmd/controller/main.go:616-631 | a lookup finds the last listed unit with its key, or none if there is none |
| Units.FindIsExactIff | cmd/controller/main.go:616-631 | lookups are exact for every query exactly if no listed project holds a slash |
| Units.SlashIsMisfound | cmd/controller/main.go:616-631 | any unit whose project holds a slash is found under another name |
| Units.SlashExample | cmd/controller/main.go:616-631 | the unit of a in b/c is what a query for a/b in c finds |
| Units.DynamicUnits.List | cmd/controller/main.go:633-641 | every value once, in some order of the keys |
| Units.ListingIsPermutation | cmd/controller/main.go:611-641 | with distinct keys any listing is a permutation of what was loaded |
| Units.FoundIffKeysDistinct | cmd/controller/main.go:616-631 | distinct keys are exactly what finding every unit takes |
| Units.ExpandedUnitsSurvive | cmd/controller/main.go:611-641 | every expanded unit is found under its key, and the listing holds exactly them |
| Semver.ParseIsGrammar | internal/registry/resolve.go:84-87 | a string is a version exactly if the grammar writes it, and in one way only |
| Semver.CompareIsPrecedence | internal/registry/resolve.go:100 | comparison is the numeric order of major, minor and patch |
| Semver.CompareNumbersIsNumeric | internal/registry/resolve.go:100 | comparing numerals by length and characters is comparing numbers of any size |
| Registry.BestMatch | internal/registry/resolve.go:73-105 | the loop returns the digest of the specified best tag |
| Registry.BestTagIsEarliestHighest | internal/registry/resolve.go:73-105 | that tag is the earliest of highest precedence among the candidates, and absent only if there is none |
| Registry.AbbreviationsDecide | internal/registry/resolve.go:88-99 | comparing abbreviations at the constraint's depth decides whether every number written out agrees |
| Registry.Resolve | internal/registry/resolve.go:21-68 | a track's first tag; for a version the best release tag, else the best per-service tag, else an error |
| Registry.ResolutionSelects | internal/registry/resolve.go:21-68 | for every answer: a track selects the first tag of that name; a version that the grammar spells selects the earliest highest release, or else per-service release, with a digest; and nothing else is ever resolved |
| Registry.ReadingIsGrammar | internal/registry/resolve.go:77-87 | a tag stands for a release exactly if what follows the prefix spells it, with or without the v |
| Registry.ReleaseTagsDecide | internal/registry/resolve.go:40-66 | whenever a release tag matches, adding or removing per-service tags cannot change the answer |
| Registry.ServiceTagsAreApartIff | internal/registry/resolve.go:40-66 | exactly for which image names the two kinds of tags are independent |
| Registry.SomeNamesReadAsReleases | internal/registry/resolve.go:84-87 | an image name for which they are not |
| Registry.NoPlusNoRelease | internal/registry/resolve.go:84-87 | a name without a plus sign is never one |
| Registry.ResolvedDigestIsListed | internal/registry/resolve.go:21-68 | whatever is resolved is the digest of a listed tag |
| Registry.ServiceTagReadsAsRelease | internal/registry/resolve.go:84-87 | a per-service tag reads as a release only if the image name holds a plus sign |
| Rbac.HasAnyGrantIffCanSync | internal/rbac/rbac.go:121-157 | a grant exists exactly when some named unit could be synced under some folder membership |
| Rbac.SyncNeedsOwnRule | internal/rbac/rbac.go:73-91 | a subject may sync a unit exactly if a rule of the subject's own has a scope that admits it |
| Rbac.ScopeAdmits | internal/rbac/rbac.go:202-223 | the four forms of scope and nothing else: everything, an environment, one application in one project, the projects of a folder |
| Rbac.RecognizedIffSatisfiable | internal/rbac/rbac.go:142-157 | a scope is recognized exactly when it could match |
| Rbac.EmptyFolderIsNoGrant | internal/rbac/rbac.go:146-148 | where the two differ without the condition on folder ids |
| Rbac.EnvScope | internal/rbac/rbac.go:215-217 | an environment scope admits exactly that environment's units |
| Rbac.FolderScope | internal/rbac/rbac.go:207-214 | a folder scope admits exactly the projects resolved for it |
| Rbac.AppScope | internal/rbac/rbac.go:218-221 | an application scope admits exactly one unit, the project possibly holding further separators |
| Rbac.SeparatorInNameIsUngrantable | internal/rbac/rbac.go:218-221 | an application whose name holds the separator cannot be granted by such a scope |
| Rbac.FolderScopes | internal/rbac/rbac.go:93-108 | the distinct folders of all scopes, at their first occurrence |
| Rbac.FoldersAreNamed | internal/rbac/rbac.go:93-108 | the folders collected are exactly those that some scope names |
| Rbac.FolderScopesSuffice | internal/rbac/rbac.go:73-108 | decisions depend on no other folder |
| Caches.ServedValuesWereFetched | internal/gitsource/gitsource.go:63-114 | in every concurrent run a served value came from a successful lookup of the same key, fresh at its check or fetched by the flight waited for |
| Caches.FreshEntryIsServed | internal/gitsource/gitsource.go:69-85 | a fresh entry is served, before joining a lookup and inside one, and only without one anything is fetched |
| Caches.LookupsSettle | internal/folders/folders.go:103-140 | a success is stored with its time and handed out; a failure is the answer unless an older entry may stand in |
| Caches.AnswersAreFinal | internal/folders/folders.go:90-150 | an answer is given once: neither a returned call nor the result of a finished lookup ever changes |
| Caches.ManifestsAreTheirOwn | internal/gitsource/gitsource.go:63-114 | a manifest is served for its own repository, path and branch, and never stale |
| Caches.OnlySuccessesAlterCache | internal/gitsource/gitsource.go:88-97 | errors never alter the cache; an entry only ever changes to the newest success |
| Caches.OnceResolvedNeverFails | internal/folders/folders.go:103-149 | with the fallback, once a flight or a call for a key has yielded a value, every later call for it that returns, returns one, whatever happens in between |
| Caches.ResolvedFoldersStayResolved | internal/folders/folders.go:117-140 | and a fallback answer is the most recent successful listing |
| Caches.LookupsAreShared | internal/folders/folders.go:103 | at most one lookup per key is under way |
| Caches.JoinKeyIsInjective | internal/gitsource/gitsource.go:74-77 | the joined key tells keys apart whose repository and path hold no NUL |
| Caches.NulPartsCollide | internal/gitsource/gitsource.go:74-77 | and otherwise keys can collide |
| Caches.InstancesAreSeparate | internal/gitsource/gitsource.go:40-48 | both caches satisfy the machine's condition on keys |
| CacheSources.ManifestSource.Get | internal/gitsource/gitsource.go:63-104 | with everyone else interleaved: returned data was fetched for this repository, path and branch, by the flight waited for or within the time to live of the check that served it |
| CacheSources.SharedCache.LookUp | internal/gitsource/gitsource.go:82-98 | a successful lookup is what its flight hands out |
| CacheSources.SharedCache.Get | internal/gitsource/gitsource.go:63-104 | a call ends with its answer, or waits for a flight that another leads; left alone it gets the fresh entry, else what its lookup returns, else perhaps the old entry |
| CacheSources.LeadsKeepsReachable | internal/gitsource/gitsource.go:63-114 | every state these calls leave is a state of a run of the machine |
| CacheSources.FolderResolver.ProjectsInFolder | internal/folders/folders.go:90-150 | the same with the fallback: no failure once the folder has an entry, and a stale listing is the latest success when it was read |

## Left out

- Network clients, credentials, token minting, migrations and the web interface: they hold no shared protocol state.
- YAML decoding and the rewriting of manifests: the model starts from decoded records.
- Health assessment (`internal/health`): a live read carries its health as given.
- Orphan detection, HTTP handlers, metrics and logging: short case tables.
- Cloud Run itself: a store that holds the spec last written, with reads and writes that may fail, before or after taking effect.
- Trigger, actor, error text and timestamps of audit rows: no decision reads them.
- Config.Parse: what makes a webhook URL well formed is a parameter, because it rests on the URL library.
- Semver.CompareIsPrecedence: the order among pre-releases is not modelled, because tag selection skips them.
- Reconciler.Reconciler.RunOnce: the number of workers is not modelled; passes run one after the other in any order, with every other pass free to act between any two steps.
- Leadership.Run: how the clock and the ticker produce events is the business of `Lease`; here an event list stands for them.
- Notifier.Evaluator.Evaluate: message texts are not modelled, and a sink is a name; whether a message reaches it is part of the script.
- CacheSources.SharedCache.Get: a call that waits for another's flight waits as long as its script does and may be left waiting.
- The store that swaps access policies while requests are served: every statement about grants is about one policy and one membership.
