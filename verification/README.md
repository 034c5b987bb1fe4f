# kube-applier: a verified model

kube-applier runs Kubernetes controllers that read *desires* (ApplyDesire, DeleteDesire, ReadDesire)
from a specs database, act on a cluster, and write status documents to a second database with
optimistic concurrency. This project models the protocols under those controllers and proves what
they guarantee, for every interleaving, every run and every input.

| file | what it models |
|---|---|
| `types.dfy`, `conditions.dfy`, `outcomes.dfy`, `outcome_laws.dfy` | desires, conditions, errors, the status mutation each controller builds, and what a reader finds after it |
| `store.dfy`, `status_writer.dfy`, `quiescence.dfy` | the versioned store, one UpdateStatus call with rivals between its fetch and its write, repeated calls |
| `write_protocol.dfy`, `write_answers.dfy` | any number of interleaved UpdateStatus calls, with late and repeated deliveries; what their callers hear, and what that means |
| `read_manager.dfy`, `read_lifecycle.dfy`, `read_progress.dfy` | the ReadDesire manager as a machine of threads: mutex, cancel, wait, goroutine start and exit |
| `read_revisions.dfy`, `read_syncs.dfy` | which spec revision an instance is built for, over a run and over one sync |
| `read_fencing.dfy` | that machine and the write protocol together |
| `desire_syncs.dfy` | runs of the Apply or Delete controller over changing specs |
| `sync_once.dfy`, `apply_desire.dfy`, `delete_desire.dfy`, `mirror.dfy` | the sync functions; the deletion state machine against a cluster others change |
| `delete_runs.dfy` | what a stored DeleteDesire status says about the cluster |
| `cooldown.dfy`, `workqueue.dfy`, `change_detection.dfy` | cooldown over a bounded LRU, the queue contract, event handlers and workers |
| `watcher.dfy`, `cache_agreement.dfy` | Firestore snapshots to watch events to cache; exactly when the cache agrees |
| `float64.dfy`, `json_numbers.dfy`, `json_lexer.dfy`, `json.dfy` | doubles with round to nearest even, JSON numbers, the bytes of JSON, its grammar |
| `json_values.dfy`, `json_normal.dfy`, `json_laws.dfy` | decoding into Go maps and encoding back; what one trip does to a text; what texts, numbers and strings mean by RFC 8259 |
| `codec.dfy`, `mirror_codec.dfy` | KubeContent, the document map and field-path updates; mirroring through Firestore |
| `heap_desire.dfy`, `heap_store.dfy`, `heap_writer.dfy`, `heap_manager.dfy` | the imperative code over objects, arrays and pointers, proved against the specifications above |

The machines (`*Protocol`, `ReadDesireManager`, `DesireSyncs`, `ChangeDetection`) are transition
relations whose steps are the source's atomic actions; the theorems are about all runs. The `heap_*`
files hold the same code in its imperative form: methods that change fields and arrays, whose
postconditions equate the new state with the specification function or, for the manager, hand back
the path its machine takes.

## Where the code differs from its documentation, and claims that hold only conditionally

- A failed precondition is swallowed as nil (`pkg/controllers/desirestatuswriter/desirestatuswriter.go:101-104`)
  and nothing requeues the key at once, since the informers watch only the specs database
  (`internal/database/informers/informers.go:37-40`); the repository's `README.md:130-132` and the comment at
  `pkg/controllers/desirestatuswriter/desirestatuswriter.go:60-62` promise a retry. So a nil return does not
  mean the status was written: it holds what the call observed if and only if no other write landed on the
  document since the fetch (`NilHoldsIff`, `NilShowsIff`; `NilCanHoldNothing` and `AppliedButNotRecorded`
  are the other case).
- Live instances are in bijection with `running` only outside two windows: between deleting an entry
  and cancelling it, and between storing an entry and starting its goroutine. `LifecycleConservation`
  gives the exact condition, `BijectionCanFail` a run that reaches a window.
- Replace equals a full overwrite (the repository's `README.md:132-135`) exactly on documents with no fields besides
  the four this code writes (`ReplaceIsOverwrite`).
- The fallback for a second Get without a deletion timestamp (`pkg/controllers/delete_desire/controller.go:283-286`)
  is unreachable only if nobody re-creates the target; with re-creation a brand-new object is reported
  as waiting for deletion (`FallbackMeansRecreated`, `FallbackIsReachable`).
- A nil-returning mirror sync may leave readers with other KubeContent than the object's in three ways: a
  write lands between its own read and UpdateStatus's (`StaleBytesStay`); a write lands between
  UpdateStatus's fetch and its write, which is then refused (`RefusedMirrorIsSwallowed`); or the bytes do
  not survive Firestore (`LargeIntegerIsNotMirrored`). `MirrorsIff` is exact for a store that returns bytes
  as written, `SeenToMirrorIff` for one that respells them.
- KubeContent goes through float64: an int64 that is no double, 9007199254740993 say, is written exactly by
  json.Marshal and read back as 9007199254740992 (`LargeIntegerIsLost`). A mirrored object settles exactly
  when each of its numbers is spelled as its double is; otherwise every sync writes again
  (`SettlesIffOwnSpelling`).
- The informer cache agrees with the last snapshot on a document if and only if the document's newest
  change converts or the changes that did convert leave nothing of it (`AgreesIff`). It fails when a cached
  document stops converting (`UnconvertibleStaysStale`), also after the document is then removed
  (`RemovedStaysCached`).
- When a spec changes but its target item does not, SyncOnce keeps the running instance
  (`pkg/controllers/read_desire_manager/controller.go:248-251`), which goes on reporting the revision it was
  built for. `SyncLeaves` says exactly when that happens, `RevisionCanLag` is a run, and no write of the kept
  instance ever reports the newer revision (`KeptSessionLags`).

## What is assumed

- The store behaves as FakeCRUD: tokens come from a rising counter, a Replace lands only if the token
  matches. Status documents are never deleted. A store call sent before its context was cancelled may
  land at any later time, or more than once; a cancelled context sends nothing new. When the process
  starts, no status document reports a later revision than its spec has had.
- The workqueue keeps its documented contract (`workqueue.dfy`); one leader runs.
- For the per-document claims about Apply and Delete, ClusterID and NodePoolName stay fixed for a
  document: keys carry them, fetches use only the name (`pkg/controllers/keys/keys.go:53-70`).
- Update times of a spec document rise with each revision. Times are natural numbers with 0 for Go's zero
  time. The setters of one mutate call read the clock once.
- Firestore reports, for each snapshot, a faithful difference from the one before.
- json.Marshal spells a double so that it reads back as the same double, and a whole number up to 2^53 in
  plain digits (`JsonNumbers.Faithful`, which `FaithfulFormatterExists` shows can be met). Strings are valid
  UTF-8 and nesting stays within encoding/json's limit. Bytes, white space, escapes, grammar, rounding and
  key order are modelled.

## Model

| member | source | states |
|---|---|---|
| StatusWriteProtocol.NoLostUpdate | pkg/controllers/desirestatuswriter/desirestatuswriter.go:82-117 | Over any run of any number of writers the landed versions of each document form one chain from the initial to the present one; each is its writer's mutation of exactly the version before it; no call lands twice; one Create at most; tokens strictly rise. |
| StatusWriteProtocol.StepInv | internal/database/listertesting/fake_crud.go:96-115 | Every step of every call keeps the invariant from which the chain, the tokens and the fencing follow. |
| StatusWriteProtocol.DeadMeansRefused | internal/database/crud.go:145-171 | The store refuses a sent request exactly when the stored token is no longer the one the request was computed from. |
| StatusWriteProtocol.RefusedLeavesNoTrace | internal/database/listertesting/fake_crud.go:99-108 | A delivery leaves the world unchanged exactly when it is refused; otherwise it adds one landing. |
| StatusWriteProtocol.RefusedForever | internal/database/crud.go:158-164 | A request that was refused, or has landed, is refused at every later time. |
| StatusWriteProtocol.LaterGenerationFences | pkg/controllers/desirestatuswriter/desirestatuswriter.go:101-106 | Once a generation of a key has landed a write, no write of an earlier generation lands, however late it arrives. |
| StatusWriteAnswers.NilHoldsIff | pkg/controllers/desirestatuswriter/desirestatuswriter.go:94-108 | At any point of any run, for any call that returned nil: the document holds that call's outcome, and reads as its mutation of what it fetched, if and only if no other call's write landed on it since the fetch. |
| StatusWriteAnswers.NilCanHoldNothing | pkg/controllers/desirestatuswriter/desirestatuswriter.go:101-104 | A run in which a timed-out write arrives between the next call's fetch and its write: that call returns nil and the document keeps the older outcome. |
| StatusWriteAnswers.EveryAnswerIsUpdateStatus | pkg/controllers/desirestatuswriter/desirestatuswriter.go:82-117 | Whenever a call is answered, in any interleaving, there is a way its fetch and write can fare with which the sequential UpdateStatus, on the store as fetched and the store of that moment, leaves the same store and returns the same error; giving up is one. |
| StatusWriteAnswers.HeardDelivery | pkg/controllers/desirestatuswriter/desirestatuswriter.go:101-107 | For a delivery its caller hears: with the store at the fetch and the store the write reaches, the call leaves the store and returns the error of the sequential UpdateStatus. |
| StatusWriteAnswers.UninterruptedCall | pkg/controllers/desirestatuswriter/desirestatuswriter.go:82-108 | A call nothing interrupts leaves the store and returns the error of UpdateStatus on that one store. |
| StatusWriteAnswers.ErrsIff | pkg/controllers/desirestatuswriter/desirestatuswriter.go:87-117 | A call of any run errs exactly when it gives up, or hears that its Create was refused: it had found no document, and its name is empty or the document exists when the Create arrives. |
| StatusWriter.NilIsRecordedIff | pkg/controllers/desirestatuswriter/desirestatuswriter.go:82-117 | A nil call has recorded its mutation if and only if nothing landed on the document between its fetch and its write; then the document reads as mutated, otherwise the call leaves no trace. |
| StatusWriter.NilWithoutRecord | pkg/controllers/desirestatuswriter/desirestatuswriter.go:101-104 | For every mutation that changes a document there is a rival write that makes the call return nil and record nothing. |
| StatusWriter.OthersUntouched | pkg/controllers/desirestatuswriter/desirestatuswriter.go:82-117 | No call touches another document. |
| StatusWriter.WriteDecision | pkg/controllers/desirestatuswriter/desirestatuswriter.go:94-99 | On an existing document a write is attempted if and only if mutate changes what was fetched; a store that changed was written to, undisturbed. |
| StatusWriter.FailsIff | pkg/controllers/desirestatuswriter/desirestatuswriter.go:82-117 | UpdateStatus returns an error if and only if the fetch was not answered, or a write was needed (no document, or mutate changes it) and either was not answered, or the document was absent at the fetch and the name is empty or the document exists at the write. |
| StatusWriter.LostCalls | pkg/controllers/desirestatuswriter/desirestatuswriter.go:82-117 | A lost write leaves the store alone, one whose answer is lost leaves what it would have left had it been heard, an unanswered fetch attempts nothing. |
| VersionedStore.Replies | internal/database/listertesting/fake_crud.go:76-115 | When Create and Replace answer what: an empty id, an existing document, a missing one, another token; and nothing else. |
| VersionedStore.ReadsBack | internal/database/listertesting/fake_crud.go:76-115 | What was stored is read back with a token above all others and the first Create's creation time; what was refused changed nothing; no other document is affected. |
| VersionedStore.DeleteRemoves | internal/database/listertesting/fake_crud.go:117-125 | A Delete removes that document and no other, and says whether it was there. |
| Quiescence.MutateIsIdempotent | pkg/controllers/conditions/conditions.go:32-83 | Recording the same observation again, at any time, changes no field, LastTransitionTime included. |
| Quiescence.WritesAreBoundedByChanges | pkg/controllers/desirestatuswriter/desirestatuswriter.go:94-99 | A sole writer's run of syncs makes at most as many writes as its observations changed. |
| Conditions.SetReads | pkg/controllers/conditions/conditions.go:34-53 | A set condition is the one a reader finds, restamped only when its status changed; every other type reads as before. |
| Conditions.SetCounts | pkg/controllers/conditions/conditions.go:34-53 | Setting adds a condition only where the type was missing, and never changes the number of another type. |
| OutcomeLaws.TransitionTimes | pkg/controllers/conditions/conditions.go:34-53 | A set condition is restamped exactly when its status changes or it is new, and otherwise reads as set. |
| OutcomeLaws.ErrorClasses | pkg/controllers/apply_desire/controller.go:261-282 | The classes the controllers ask about, over the chain Unwrap walks: a precheck anywhere in it, a StatusError with a code from 400 to 499, one that says not found. |
| OutcomeLaws.TextIs | pkg/controllers/conditions/conditions.go:19-26 | A wrapped error reads as its prefix, a colon and what it wraps; a PreCheckError reads as what it holds. |
| OutcomeLaws.SuccessfulTable | pkg/controllers/conditions/conditions.go:32-64 | Under Successful, after any of the five mutations and whatever was there: False with the error's text, PreCheckFailed if its outermost layer is a precheck and KubeAPIError if not; WaitingForDeletion on a wait; else True. |
| OutcomeLaws.DegradedTable | pkg/controllers/conditions/conditions.go:67-83 | Under Degraded, after an apply or delete outcome: True with the text of an error that is neither a precheck nor a 4xx, else False. |
| OutcomeLaws.WaitingTells | pkg/controllers/conditions/conditions.go:56-64 | A waiting message tells the deletion time, in digits that read back as it, and the uid. |
| OutcomeLaws.MutateFrame | pkg/controllers/read_desire_kubernetes/controller.go:226-254 | What each mutation leaves alone: spec and spec content always, the generation but for apply, mirrored content but for a mirror that stores, every other condition type, and Degraded on a read outcome. |
| OutcomeLaws.WireNames | pkg/api/kubeapplier/conditions.go:4-13 | The condition types and reasons a reader matches on. |
| ReadDesireManager.NextInv | pkg/controllers/read_desire_manager/controller.go:234-304 | Every step of every thread, and every exit of an instance, keeps the lifecycle invariant. |
| ReadDesireLifecycle.LifecycleConservation | pkg/controllers/read_desire_manager/controller.go:234-292 | Before shutdown, in every reachable state, the started, uncancelled, unexited instances are in bijection with the running entries if and only if no thread is in one of the two windows. |
| ReadDesireLifecycle.LiveOrInHand | pkg/controllers/read_desire_manager/controller.go:265-292 | Inside the windows a live instance is listed or about to be cancelled by the thread that took it, and an entry is live or about to be started. |
| ReadDesireLifecycle.NoOverwriteNoDouble | pkg/controllers/read_desire_manager/controller.go:267-269 | The store into running never overwrites an entry, also during shutdown; before shutdown a key has at most one unexited instance. |
| ReadDesireLifecycle.NothingLiveAtShutdown | pkg/controllers/read_desire_manager/controller.go:142-159 | From the moment stopAll begins no instance is live, including one a racing SyncOnce inserts later. |
| ReadDesireLifecycle.BijectionCanFail | pkg/controllers/read_desire_manager/controller.go:267-275 | A run that reaches a state where an entry is not yet live. |
| ReadDesireLifecycle.WatchesItsRevision | pkg/controllers/read_desire_manager/controller.go:246-256 | Every instance was built for a published revision of its own document, target included. |
| ReadDesireProgress.InternalDecreases | pkg/controllers/read_desire_manager/controller.go:280-304 | Every step of a manager thread and every instance exit lowers one measure. |
| ReadDesireProgress.StopsTerminate | pkg/controllers/read_desire_manager/controller.go:142-159 | Over any stretch of any run, shutdown and a queue that keeps handing out keys included, manager steps and instance exits number at most Measure plus seventeen for each key picked. |
| ReadDesireProgress.EveryStopIsBounded | pkg/controllers/read_desire_manager/controller.go:280-304 | A stopByKey, and stopAll once it has its list, takes at most a number of its own steps fixed when it began, whatever other threads and the queue do. |
| ReadDesireProgress.WaitEnds | pkg/controllers/read_desire_manager/controller.go:290-291 | Whenever a stop waits on done, the step it waits for can be taken. |
| ReadDesireProgress.NoDeadlock | pkg/controllers/read_desire_manager/controller.go:265-304 | In every reachable state in which some thread has something left to do, a manager thread or an instance exit can step. |
| ReadDesireProgress.CancelBeforeWait | pkg/controllers/read_desire_manager/controller.go:290-291 | Whoever waits on done has cancelled that instance and does not hold the mutex. |
| ReadDesireFencing.StepInv | pkg/controllers/read_desire_manager/controller.go:252-277 | The manager's machine and the write protocol run together as refinements of both, since whoever may call the store is the newest session of its key. |
| ReadDesireFencing.StoppedWritersAreFenced | pkg/controllers/read_desire_manager/controller.go:252-292 | Once a successor for a key (new instance or build-failure write) has landed a write, nothing begun by an earlier session of that key lands, though Run does not join its worker. |
| ReadDesireFencing.LandedRevisionIsWatched | pkg/controllers/read_desire_kubernetes/controller.go:200-254 | Every landed ObservedDesireUpdateTime names a published revision of that document whose target is the one its writer was built for. |
| ReadDesireFencing.ReadObservedIsMonotone | pkg/controllers/read_desire_manager/controller.go:234-277 | ObservedDesireUpdateTime of a ReadDesire never decreases from landing to landing of a key, through restarts, late writes and shutdown. |
| ReadDesireFencing.KeptSessionLags | pkg/controllers/read_desire_manager/controller.go:248-251 | No landing of a session, however late, reports another revision than the one the session was built for. |
| ReadDesireRevisions.RevisionsRise | pkg/controllers/read_desire_manager/controller.go:234-269 | Over any run, later sessions of a key are built for no older revision of its spec. |
| ReadDesireSyncs.LookKeepsIff | pkg/controllers/read_desire_manager/controller.go:244-251 | At the look into running a sync ends if and only if an instance with the spec's target runs, and then changes nothing. |
| ReadDesireSyncs.SyncLeaves | pkg/controllers/read_desire_manager/controller.go:234-278 | A whole sync among all other threads, before shutdown, that does not fail to build leaves a live instance for the spec's target, built for the fetched revision if and only if no instance with that target and another revision was running at the fetch. |
| ReadDesireSyncs.RevisionCanLag | pkg/controllers/read_desire_manager/controller.go:248-251 | A run in which a changed spec is synced without error and the one running instance is still the one built for the old revision. |
| ReadDesireManaging.Manager.TakeOut | pkg/controllers/read_desire_manager/controller.go:281-286 | The lock section returns the entry's instance, if any, and removes just that entry. |
| ReadDesireManaging.Manager.StopByKey | pkg/controllers/read_desire_manager/controller.go:280-292 | Removes the entry, then cancels, then waits, along a path of the machine; that the wait ends is a fact of the machine (`WaitEnds`), not of this method. |
| ReadDesireManaging.Manager.CollectKeys | pkg/controllers/read_desire_manager/controller.go:296-299 | Lists every running key exactly once. |
| ReadDesireManaging.Manager.StopAll | pkg/controllers/read_desire_manager/controller.go:294-304 | Uninterrupted, stops every instance that was in running and leaves it empty, along a path of the machine; with a racing SyncOnce the guarantee is `NothingLiveAtShutdown`. |
| ReadDesireManaging.Manager.SyncOnce | pkg/controllers/read_desire_manager/controller.go:234-278 | Keeps an instance with the spec's target; otherwise stops the old one first and then runs a fresh one for the spec, or none if the document is gone or the build failed; the instance left was built for the fetched revision if and only if none with that target and another revision was running; touches no other key; along a path of the machine. |
| SyncOncePass.ApplyNilMeansApplied | pkg/controllers/apply_desire/controller.go:206-229 | A nil return means the apply was called and accepted; the status records that, for the revision read, if and only if nothing landed on it between its fetch and its write, and otherwise the sync left no trace. |
| SyncOncePass.AppliedButNotRecorded | pkg/controllers/apply_desire/controller.go:218-228 | An accepted apply that returns nil while the document keeps another revision. |
| SyncOncePass.NilIsQuiet | pkg/controllers/apply_desire/controller.go:218-228 | As sole writer, a sync that returned nil and observes the same again attempts no write. |
| SyncOncePass.DeleteNilMeansGoneOrWaiting | pkg/controllers/delete_desire/controller.go:189-210 | A nil return means the target was seen gone or terminating; the status records that verdict, for the revision read, if and only if nothing landed on it between its fetch and its write, and otherwise the sync left no trace. |
| SyncOncePass.ApplySyncFailsIff | pkg/controllers/apply_desire/controller.go:206-229 | A sync fails if and only if the spec was unreadable, or it was read and the apply was not called, was refused, or the status write must fail; an unreadable or missing spec attempts nothing and changes nothing, and a missing one is no error. |
| SyncOncePass.DeleteSyncFailsIff | pkg/controllers/delete_desire/controller.go:189-210 | The same for a delete sync, over the answers of its three calls. |
| SyncOncePass.WhatIsReported | pkg/controllers/delete_desire/controller.go:201-207 | A sync reports exactly the revision it read. |
| DesireSyncs.StepInv | pkg/controllers/apply_desire/controller.go:206-229 | Spec changes, overlapping syncs of different keys and late writes keep the invariant that ties every stored version to one sync. |
| DesireSyncs.ObservedIsMonotone | pkg/controllers/apply_desire/controller.go:218-224 | ObservedDesireUpdateTime never decreases from one version of a document to the next over a run, the version it had at the start included, also when a timed-out write lands late. |
| DesireSyncs.ObservedIsUntorn | pkg/controllers/delete_desire/controller.go:201-207 | Every stored version shows in all its fields what one sync observed, under exactly the revision that sync fetched. |
| DesireSyncs.EveryStoredStatusObeysTheTable | pkg/controllers/delete_desire/controller.go:293-309 | Every stored version has exactly one Successful and one Degraded condition; it is Degraded exactly when the sync that wrote it ended with an error with no precheck and no 4xx in its chain, whose text it carries; Degraded=True implies Successful=False/KubeAPIError, PreCheckFailed implies Degraded=False, a nonzero generation implies Successful=True. |
| DesireSyncs.NilShowsIff | pkg/controllers/delete_desire/controller.go:203-209 | For a status write of any sync of any run that returned nil: its document holds and shows what that sync observed if and only if no other write landed on it since the status fetch. |
| DeleteDesireRuns.StoredStatusIsLinearizable | pkg/controllers/delete_desire/controller.go:189-291 | Every stored DeleteDesire status, late writes included, given the pass behind it: Successful=True means the target was absent at an instant of the pass, WaitingForDeletion that the pass last saw it terminating or after its own accepted Delete. |
| DeleteDesireRuns.StoredStatusOnTimeline | pkg/controllers/delete_desire/controller.go:189-291 | The same on one timeline of the cluster beside the run: those instants fall while the sync that wrote the status was the one running for its key. |
| DeleteDesireRuns.SuccessIsStable | pkg/controllers/delete_desire/controller.go:189-291 | On one timeline without re-creation: once a stored status is Successful=True every later one is too, or an API call of its sync failed, late writes included. |
| ApplyDesire.ErrorOfPass | pkg/controllers/apply_desire/controller.go:231-259 | No error exactly when the apply was called and accepted, a PreCheckError exactly when it was not called, and a generation only on success. |
| ApplyDesire.PreCheckTexts | pkg/controllers/apply_desire/controller.go:231-251 | What a pass that calls nothing says, for an incomplete target, empty content and content that does not decode. |
| OutcomeLaws.WhatATargetNeeds | pkg/controllers/apply_desire/controller.go:232-235 | A target needs a version, a resource and a name, and neither a group nor a namespace. |
| ApplyDesire.ApplyOutcomeTable | pkg/controllers/apply_desire/controller.go:218-282 | What both conditions and the generation say after a sync, for every target, content and answer, whatever the document said before. |
| ApplyDesire.WrapKeepsChain | pkg/controllers/apply_desire/controller.go:261-282 | Wrapping an error with %w hides nothing from errors.As. |
| DeleteDesire.OutcomeIsLinearizable | pkg/controllers/delete_desire/controller.go:213-291 | Whatever others do between the calls: Gone means absent at some instant of the pass; Waiting means the last Get saw that object terminating, or this pass's accepted Delete came first; Failed exactly when a call failed or the spec is incomplete; Delete is issued only on an object seen without a timestamp. |
| DeleteDesire.ErrorOfDeletePass | pkg/controllers/delete_desire/controller.go:213-291 | A pass ends with a PreCheckError exactly when the target is incomplete; a call that fails with e, no 404, fails the pass with e under that call's prefix and in e's classes. |
| DeleteDesire.HowPassesEnd | pkg/controllers/delete_desire/controller.go:213-291 | A pass reports gone exactly when one of its calls was answered with a 404, waiting exactly when its last Get found an object, with that object's uid and time, and fails exactly when the target is incomplete or a call failed otherwise. |
| DeleteDesire.DeleteOutcomeTable | pkg/controllers/delete_desire/controller.go:213-309 | Both stored conditions from the answers of the three calls alone, for every prior status: with a call that failed with e, KubeAPIError with e's text and Degraded exactly when e has no precheck and no 4xx in its chain. |
| DeleteDesire.PhaseFalls | pkg/controllers/delete_desire/controller.go:230-290 | If what is absent stays absent, what is present stays the same object and a deletion timestamp is never cleared, the phase present > terminating > absent never rises. |
| DeleteDesire.ErrorFreePassConverges | pkg/controllers/delete_desire/controller.go:230-290 | Without re-creation an error-free pass leaves the target terminating or absent, Gone means absent from then on, and the missing-timestamp branch is not taken. |
| DeleteDesire.GoneIsStable | pkg/controllers/delete_desire/controller.go:230-236 | Without re-creation every pass after a Gone one reports Gone or an API failure. |
| DeleteDesire.FallbackMeansRecreated | pkg/controllers/delete_desire/controller.go:281-286 | The missing-timestamp branch is taken exactly when the last Get sees an object that nobody is deleting, which was then re-created after this pass's Delete. |
| DeleteDesire.FallbackIsReachable | pkg/controllers/delete_desire/controller.go:281-290 | The re-creation history on which it is taken. |
| ReadDesireMirror.MirrorsIff | pkg/controllers/read_desire_kubernetes/controller.go:183-255 | On a store that returns bytes as written, a nil-returning sync of a readable object: if nothing landed between UpdateStatus's fetch and its write, the document mirrors the object if and only if SyncOnce's own read saw other bytes or UpdateStatus's read still saw the same ones; if something did, the sync left no trace. |
| ReadDesireMirror.WhatMirrorsMeans | pkg/controllers/read_desire_kubernetes/controller.go:226-254 | To mirror is to hold the revision, the object's bytes (nil and empty alike for an absent one) and Successful=True. |
| ReadDesireMirror.WhatIsAskedFor | pkg/controllers/read_desire_kubernetes/controller.go:226-254 | A sync that can read the object asks for its bytes, or nil for an absent one, exactly if its own fetch saw others. |
| ReadDesireMirror.WhenNothingIsDone | pkg/controllers/read_desire_kubernetes/controller.go:184-197 | An unsynced informer skips the sync whatever the calls would answer: nothing attempted, nothing changed, nil. A failed own fetch returns its error and does nothing either. |
| ReadDesireMirror.SyncFailsIff | pkg/controllers/read_desire_kubernetes/controller.go:183-255 | A sync fails exactly when the informer has synced and its own fetch failed or UpdateStatus must fail. |
| ReadDesireMirror.ContentChangesOnlyIfReadable | pkg/controllers/read_desire_kubernetes/controller.go:199-254 | The mirrored content of a document changes only in a sync that could read the object, and then to the object's bytes, or nil for an absent one; no other document changes. |
| ReadDesireMirror.FailureTexts | pkg/controllers/read_desire_kubernetes/controller.go:199-224 | Each failed observation is reported under its own words, an unexpected type as a precheck and the others not. |
| ReadDesireMirror.StaleBytesStay | pkg/controllers/read_desire_kubernetes/controller.go:226-237 | The first failing family: own read and cache agree, UpdateStatus's read does not, and the other bytes stay. |
| ReadDesireMirror.RefusedMirrorIsSwallowed | pkg/controllers/read_desire_kubernetes/controller.go:239-254 | The second: a rival write before the Replace, which is refused and returned as nil. |
| ReadDesireMirror.SoleWriterMirrors | pkg/controllers/read_desire_kubernetes/controller.go:226-254 | On a store that returns bytes as written, as sole writer: nil means KubeContent byte-equal to the cached object (empty when absent), Successful=True and the instance's revision; the next sync of the same object attempts no write. |
| ReadDesireMirror.UnreadableKeepsTheBytes | pkg/controllers/read_desire_kubernetes/controller.go:200-224 | A cache, type or marshal error is reported as Successful=False with the right reason and leaves KubeContent alone, unless something landed between UpdateStatus's fetch and its write: then no trace. |
| MirrorThroughFirestore.SeenToMirrorIff | pkg/controllers/read_desire_kubernetes/controller.go:183-255 | Through Firestore, if nothing landed between UpdateStatus's fetch and its write, a nil return means readers see the object mirrored if and only if: where the own read saw other bytes, the object's bytes come back unchanged; where it saw the same, UpdateStatus's read saw them too. |
| MirrorThroughFirestore.ReadBackCameThrough | internal/database/rawext_codec.go:104-120 | Whatever could be stored, what is read back reads back as itself. |
| MirrorThroughFirestore.SoleWriterSeenToMirrorIff | pkg/controllers/read_desire_kubernetes/controller.go:226-254 | As sole writer, for an object as json.Marshal writes it and that had to be written: if and only if each of its numbers is spelled as its double. |
| MirrorThroughFirestore.LargeIntegerIsNotMirrored | pkg/controllers/read_desire_kubernetes/controller.go:217-254 | The failing object: a first, undisturbed, nil sync of {"n":9007199254740993} that readers do not see mirrored. |
| MirrorThroughFirestore.SettlesIffBytesComeBack | pkg/controllers/read_desire_kubernetes/controller.go:226-254 | Through Firestore the next sync of the same object changes nothing if and only if its bytes come back unchanged. |
| MirrorThroughFirestore.SettlesIffOwnSpelling | pkg/controllers/read_desire_kubernetes/controller.go:217-254 | For an object as json.Marshal writes it: if and only if each of its numbers is spelled as its double. |
| Cooldown.CooldownChecker.CanSync | internal/controllerutils/cooldown.go:51-63 | Answer and new cache are those of the LRU specification. |
| Cooldown.FalseIsJustified | internal/controllerutils/cooldown.go:51-63 | Every false follows a true answer for the key within the cooldown, whatever was evicted; so falses never postpone the next true. |
| Cooldown.TrueIff | internal/controllerutils/cooldown.go:51-63 | Every answer, exactly: a key asked about before is answered true if and only if strictly more than the cooldown has passed since its last true, or at least capacity other keys were asked about since it was last asked about. |
| Cooldown.FirstIsTrue | internal/controllerutils/cooldown.go:51-63 | A key never asked about before is answered true. |
| Cooldown.CachesAreBounded | internal/controllerutils/cooldown.go:36-42 | The cache never outgrows its capacity. |
| WorkQueue.OneWorkerPerKey | pkg/controllers/apply_desire/controller.go:189-203 | The queue contract: its shape is kept and no key is handed out while it is in processing. |
| WorkQueue.AddedWaits | pkg/controllers/apply_desire/controller.go:159-182 | An added key waits once, behind those already there, or until the worker that holds it is done; adding it again changes nothing; no other key is touched. |
| WorkQueue.FirstInFirstOut | pkg/controllers/apply_desire/controller.go:189-194 | Keys are handed out in the order they were queued, each once. |
| WorkQueue.DoneReturns | pkg/controllers/apply_desire/controller.go:194-203 | A finished key is queued again, behind the others, exactly if it was added meanwhile. |
| ChangeDetection.QueuedUnderItsOwnKey | pkg/controllers/apply_desire/controller.go:159-166 | A desire with a document id is queued under its own cluster, node pool and id and under nothing else; one without is not queued. |
| ChangeDetection.KeysAreOwn | pkg/controllers/keys/keys.go:21-70 | Two desires share a key exactly when they agree on all three. |
| ChangeDetection.Controller.HandleAdd | pkg/controllers/apply_desire/controller.go:141-166 | Queues the key of a desire that has one, and nothing else. |
| ChangeDetection.Controller.HandleUpdate | pkg/controllers/delete_desire/controller.go:137-165 | A changed UpdateTime always queues and leaves the cooldown alone; an unchanged one queues exactly when the cooldown allows. |
| ChangeDetection.Controller.TakeNext | pkg/controllers/apply_desire/controller.go:189-194 | Hands out the head of the queue, never a key in processing. |
| ChangeDetection.Controller.FinishNext | pkg/controllers/apply_desire/controller.go:194-203 | An error puts the key into backoff before Done. |
| ChangeDetection.NoLostSpecChange | pkg/controllers/apply_desire/controller.go:141-203 | At any point of any run a key with an unserved change is queued, dirty, in backoff or in processing; if the sync in progress fetched before the change it is also dirty or in backoff. |
| ChangeDetection.ServedByALaterFetch | pkg/controllers/delete_desire/controller.go:129-186 | A change is discharged only by a SyncOnce that returned nil and whose spec fetch began after it. |
| SnapshotWatcher.FirestoreWatcher.Run | internal/database/informers/listener_watcher.go:34-91 | What is emitted is a prefix of the events of all snapshots, the whole of it plus one expiry error unless cancelled. |
| SnapshotWatcher.EventAt | internal/database/informers/listener_watcher.go:50-72 | The events are those of the changes that convert, in order: an addition yields Added, a modification Modified, a removal Deleted, each with the change's own document. |
| SnapshotWatcher.SnapshotsAreOneStream | internal/database/informers/listener_watcher.go:43-73 | Snapshot boundaries do not show in the events. |
| SnapshotWatcher.ClipIsLongest | internal/database/informers/listener_watcher.go:67-71 | What is emitted is the longest prefix of the events that takes no more than the sends that succeed. |
| SnapshotWatcher.CacheAgreesWithSnapshots | internal/database/informers/listener_watcher.go:34-75 | After n snapshots every document all of whose versions convert is cached exactly as the last snapshot has it; list entries stay only for ids that appeared in none. |
| CacheAgreement.CacheHolds | internal/database/informers/listener_watcher.go:50-72 | With no premise on what converts: an entry is what the newest converting change of its document leaves, or the list's own if there is none. |
| CacheAgreement.AgreesIff | internal/database/informers/listener_watcher.go:50-72 | A document is cached as the last snapshot has it if and only if its newest change converts or the changes that did convert leave nothing of it. |
| CacheAgreement.ChangedIffAppeared | internal/database/informers/listener_watcher.go:50-72 | A document has a change if and only if some snapshot held it. |
| CacheAgreement.RemovedStaysCached | internal/database/informers/listener_watcher.go:51-62 | A version that does not convert followed by the removal: the Deleted event is skipped too and the old version stays cached. |
| SnapshotWatcher.UnconvertibleStaysStale | internal/database/informers/listener_watcher.go:50-62 | A version that does not convert leaves the old one cached. |
| DocumentCodec.KubeContentWriteUpdates | internal/database/rawext_codec.go:58-81 | One update or delete per KubeContent field, or an error. |
| DocumentCodec.KubeContentWriteMap | internal/database/rawext_codec.go:83-101 | One entry per non-nil KubeContent field, or an error. |
| DocumentCodec.ToFirestoreMap | internal/database/crud.go:130-143 | The loop builds the full document, or fails as it does. |
| DocumentCodec.ReplaceUpdates | internal/database/crud.go:145-156 | Applied to any stored document the updates leave our fields exactly as the full document has them and all others untouched; they fail exactly when the full document does. |
| DocumentCodec.ReplaceIsOverwrite | internal/database/crud.go:130-171 | The result equals the full document if and only if the stored one had no other fields. |
| DocumentCodec.ReadingRestores | internal/database/crud.go:196-209 | Reading back what Create wrote, or what Replace made of any document, restores spec, status and KubeContent up to spelling, for each kind. |
| DocumentCodec.WhenWritesFail | internal/database/rawext_codec.go:32-41 | A write fails exactly when some non-empty KubeContent is neither a JSON object nor null, or has a number beyond the doubles. |
| DocumentCodec.WhatIsStored | internal/database/rawext_codec.go:58-101 | What each kind stores: an ApplyDesire its spec content and no other, a ReadDesire its mirrored content and no other, a DeleteDesire none; absent content as no field, empty as null, else the decoded value; spec and status under their names, and nothing more. |
| DocumentCodec.WhatIsRead | internal/database/rawext_codec.go:104-120 | What any document that is not refused reads as: a desire of its kind, with the one content that kind has, nil if the field is missing or null and else its bytes. |
| DocumentCodec.WhenReadsFail | internal/database/crud.go:196-209 | A document is refused when read exactly if a field is not of its kind; a missing field reads as zero. |
| DocumentCodec.OtherContentIsAbsent | internal/database/rawext_codec.go:44-53 | Content reads back as nil exactly when it was absent, empty or null. |
| DocumentCodec.ContentIsNormalised | internal/database/rawext_codec.go:32-53 | One trip keeps the value at every path of the JSON object, numbers as doubles, and a second trip gives identical bytes. |
| DocumentCodec.ComesBackIff | internal/database/rawext_codec.go:32-53 | The bytes of an object come back unchanged if and only if they are json.Marshal's own: its spacing and escapes, sorted members, and every number spelled as its double. |
| DocumentCodec.MarshalledSurvivesIff | internal/database/rawext_codec.go:32-53 | For a marshalled object, which is sorted but may hold any integers, that is down to the numbers. |
| DocumentCodec.LargeIntegerIsLost | internal/database/rawext_codec.go:36-39 | {"n":9007199254740993} reads back as {"n":9007199254740992}. |
| DocumentCodec.SmallIntegerComesBack | internal/database/rawext_codec.go:32-53 | {"n":v} comes back unchanged for every plain integer up to 2^53. |
| DocumentCodec.MarshalledSurvives | internal/database/rawext_codec.go:44-53 | Bytes marshalled from a document's own value always come back unchanged. |
| Json.ParseIsInverseOfPrint | internal/database/rawext_codec.go:36-39 | The parser accepts exactly the printed texts (section 2 of RFC 8259), each as the text it prints. |
| JsonLaws.TextInBytes | internal/database/rawext_codec.go:48-52 | How a text is written, in bytes: literal names, quoted strings, elements and members in order with commas in between, names with colons (sections 2 to 7 of RFC 8259). |
| JsonLaws.NoToken | internal/database/rawext_codec.go:36-39 | A text that starts with no token is refused. |
| JsonLexer.UnescapesEscaped | internal/database/rawext_codec.go:48-52 | A string written with json.Marshal's escapes is read back byte for byte. |
| JsonLaws.ShortEscapes | internal/database/rawext_codec.go:36-39 | The eight two-character escapes stand for what section 7 of RFC 8259 says. |
| JsonLaws.UnicodeEscape | internal/database/rawext_codec.go:36-39 | An escape with four hexadecimal digits stands for its code point in UTF-8. |
| JsonLaws.SurrogatePair | internal/database/rawext_codec.go:36-39 | A high and a low surrogate stand together for the code point they encode. |
| JsonLaws.LoneSurrogate | internal/database/rawext_codec.go:36-39 | A surrogate without its partner stands for U+FFFD. |
| JsonLaws.Utf8Means | internal/database/rawext_codec.go:36-39 | UTF-8 for every code point: how many bytes, how each starts, and the code point put together from their bits. |
| JsonLaws.WhatIsEscaped | internal/database/rawext_codec.go:48-52 | Which bytes json.Marshal escapes, and in how many bytes. |
| JsonLaws.EscapesInOrder | internal/database/rawext_codec.go:48-52 | A string is escaped byte by byte, but for U+2028 and U+2029, which become their escapes. |
| JsonLexer.UnmarshalUndoesSpell | internal/database/rawext_codec.go:32-53 | Every text spelled as json.Marshal spells it is read back from its bytes: names, strings, numbers and structure. |
| JsonLexer.UnmarshalSkipsSpace | internal/database/rawext_codec.go:36-39 | White space anywhere between the tokens does not change what is read. |
| JsonNumbers.FaithfulFormatterExists | internal/database/rawext_codec.go:48-52 | What is assumed of the spelling of doubles can be met. |
| JsonLaws.ScansFraction | internal/database/rawext_codec.go:36-39 | A number with a fraction has all its digits, scaled down by the length of the fraction, and then its exponent. |
| JsonLaws.SignedExponent | internal/database/rawext_codec.go:36-39 | An exponent in either case and with either sign moves the scale by its value. |
| JsonLaws.NotNumbers | internal/database/rawext_codec.go:36-39 | Bare signs, leading zeros, missing parts and trailing bytes make no number. |
| JsonLaws.ReadsNearest | internal/database/rawext_codec.go:36-39 | A number is read as a double at most half a unit in the last place away. |
| JsonNumbers.SmallIntegersSurvive | internal/database/rawext_codec.go:32-53 | Plain integers up to 2^53 survive a trip through a double. |
| JsonNumbers.FirstIntegerDoesNotSurvive | internal/database/rawext_codec.go:36-39 | The next one does not. |
| Float64s.RoundsToItself | internal/database/rawext_codec.go:36-39 | A double is rounded to itself, subnormals included. |
| Float64s.RoundsToNearest | internal/database/rawext_codec.go:36-39 | Rounding is to the nearest double, with ties to even. |
| Float64s.Extremes | internal/database/rawext_codec.go:36-39 | The largest and the smallest double, and the first number that is too large. |
| JsonValues.DecodesLast | internal/database/rawext_codec.go:36-39 | Decoding an object keeps for each name the last member of that name. |
| JsonValues.DecodeOfEncode | internal/database/rawext_codec.go:44-53 | Decoding an encoded value gives it back, at any depth. |
| JsonLaws.DecodeMeans | internal/database/rawext_codec.go:36-39 | Decoding gives what a text means: scalars as they are, numbers as their doubles, arrays in order, objects by name with the last member of a name. |
| JsonLaws.MeaningIsUnique | internal/database/rawext_codec.go:36-39 | A text means at most one value. |
| JsonLaws.EncodeMeans | internal/database/rawext_codec.go:48-52 | Encoding gives a text that means the value. |
| JsonLaws.OrderOfNames | internal/database/rawext_codec.go:48-52 | The order members are written in: byte by byte, a beginning before the whole. |
| JsonValues.NormalIsIdempotent | internal/database/rawext_codec.go:32-53 | A second trip of a text changes nothing. |
| JsonNormal.NormalKeepsEveryPath | internal/database/rawext_codec.go:32-53 | A trip through maps keeps what stands at every path: a number's double, another scalar, array length or object names. |
| JsonNormal.LeftAloneIff | internal/database/rawext_codec.go:32-53 | A trip leaves a text alone if and only if its objects are strictly sorted and every number is spelled as its double. |
| DesireHeap.Desire.DeepCopy | pkg/api/kubeapplier/deepcopy.go:40-98 | The copy reads the same and shares no mutable cell with the original; nil stays nil. |
| DesireHeap.RawExtension.DeepCopy | pkg/api/kubeapplier/deepcopy.go:254-268 | The bytes are copied into a fresh array; nil stays nil. |
| DesireHeap.SetInPlace | pkg/controllers/conditions/conditions.go:34-53 | Updating the slice in place, or growing it, is the specification's SetStatusCondition. |
| DesireHeap.SetSuccessful | pkg/controllers/conditions/conditions.go:32-54 | The in-place setter sets the condition the error calls for. |
| DesireHeap.SetSuccessfulWaitingForDeletion | pkg/controllers/conditions/conditions.go:56-64 | The in-place setter sets the waiting condition. |
| DesireHeap.SetDegraded | pkg/controllers/conditions/conditions.go:67-83 | The in-place setter sets Degraded as the error calls for. |
| DesireHeap.MutateInPlace | pkg/controllers/apply_desire/controller.go:220-226 | Each mutate closure, run on an object in place, is the specification's mutation, and reaches no old cell but the object and its conditions. |
| DesireStore.FakeCRUD.Get | internal/database/listertesting/fake_crud.go:51-59 | Returns a fresh object that reads as the stored one, or nothing. |
| DesireStore.FakeCRUD.Create | internal/database/listertesting/fake_crud.go:76-94 | Store and answer are those of the specification, error cases included; store, argument and result share no cell. |
| DesireStore.FakeCRUD.Replace | internal/database/listertesting/fake_crud.go:96-115 | Store and answer are those of the specification, error cases included; store, argument and result share no cell. |
| DesireStore.FakeCRUD.Delete | internal/database/listertesting/fake_crud.go:117-125 | Removes exactly that document, or reports that there is none. |
| StatusWriting.UpdateStatus | pkg/controllers/desirestatuswriter/desirestatuswriter.go:82-108 | With any requests of other writers reaching the store after the fetch, the heap code has exactly the specification's outcome, refused and swallowed writes included; so mutating the copy never reaches existing. |
| StatusWriting.CreateInitialStatus | pkg/controllers/desirestatuswriter/desirestatuswriter.go:110-117 | Mutates a zero desire and creates it once. |
| StatusWriting.CallerMutates | internal/database/listertesting/fake_crud.go:27-29 | A mutate closure run on an object outside the store leaves the store alone. |
| StatusWriting.OutsideNeverShows | internal/database/listertesting/fake_crud.go:27-29 | Any change at all to objects outside the store leaves it and every document in it as they were. |
| StatusWriting.FetchAmidst | internal/database/listertesting/fake_crud.go:51-59 | A fetched object stays as it was while the store moves on. |
| StatusWriting.ReadSyncOnce | pkg/controllers/read_desire_kubernetes/controller.go:183-255 | The heap code has exactly the specification's outcome, with other writers between the two reads and before the write. |
| StatusWriting.ApplySyncOnce | pkg/controllers/apply_desire/controller.go:206-229 | The heap code has exactly the specification's outcome, with other writers between the status fetch and the write. |
| StatusWriting.DeleteSyncOnce | pkg/controllers/delete_desire/controller.go:189-210 | The heap code has exactly the specification's outcome, with other writers between the status fetch and the write. |

## Left out

- The Firestore client, gRPC, the dynamic client and the apiserver: an abstract store and a cluster whose steps are arbitrary stand for them.
- The code inside client-go's workqueue, Reflector and SharedIndexInformer, meta.SetStatusCondition and lru.Cache: each is used by its contract.
- Rate-limiter delays, queue shutdown, logging, metrics, HandleCrash and panics; leader election and process wiring in cmd and pkg/app.
- FakeCRUD.List, the runtime.Object and list types, listers, pkg/desireid: thin.
- DesireHeap.Desire.DeepCopy: one class stands for the three kinds, with the KubeContent pointer a kind lacks left nil; RawExtension.Object is always nil here and is not modelled, nor is spare slice capacity.
- ReadDesireManaging.Manager.StopByKey: the wait on done is a call that returns with the goroutine exited; that the exit comes is proved on the machine (`WaitEnds`, `NoDeadlock`), and interleavings with other threads are proved there too.
- ReadDesireManaging.Manager.StopAll: running is empty afterwards only because this method runs alone; what holds with a racing SyncOnce is proved on the machine.
- ReadDesireManaging.Manager.SyncOnce: runs alone, and the build-failure status write is a flag; the write itself is UpdateStatus and its place in the machine is `FailWrite`.
- ReadDesireProgress.EveryStopIsBounded: bounds the steps of a stop, not the time other threads may hold it up on the mutex; fairness of the mutex is not modelled.
- ReadDesireMirror.SoleWriterMirrors: the workqueue loop and ticker around SyncOnce are not modelled; a late write of the same instance counts as another writer.
- JsonLexer.UnmarshalUndoesSpell: strings are byte strings; that encoding/json replaces invalid UTF-8 is not modelled, nor are nesting limits.
- JsonNumbers.Faithful: the digits json.Marshal chooses for other doubles are left open.
- DocumentCodec.ReadingRestores: the Firestore struct codec for spec and status is part of the client; the two fields are stored and read back as they are. Copies returned by the Firestore Create and Replace are not modelled.
- Quiescence.WritesAreBoundedByChanges: the wall-clock fallback of the delete controller makes each pass that takes it a new observation.
- The exact text of condition messages: timestamps are printed as decimal numbers instead of RFC 3339.
- SnapshotWatcher.FirestoreWatcher.Run: the error returned by a failed snapshot ends the run; the re-list that follows an expiry error belongs to the Reflector.
