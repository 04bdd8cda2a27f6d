# Verification of the SecretSync operator

The operator copies Key Vault secrets into Kubernetes Secrets. A `SecretSync` object declares a
vault secret and a target Secret; a controller reconciles each SecretSync, a writer stores the
value, and a queue listener turns vault change notifications into reconcile requests. All of this
happens against an API server that other actors change between any two calls, through informer
caches that lag behind and that hide every Secret without the managed-by label.

The model keeps that setting. `History.dfy` describes the cluster as a history of snapshots that
only grows; a resourceVersion is the position of the entry that stored the object, and a cache is a
position in the history that only moves forward. `Api.dfy` is the server as one worker meets it:
before every call everybody else may do anything lawful (`Interfere`), and a call may fail without
effect. The writer, the engine and the controller are imperative programs over that server, proved
for every interleaving. On a *quiet* server, where nothing interferes and no call fails, each of them
is also proved to do exactly what a pure function says, and the promises about repair, quiescence
and convergence are proved of that function.

| file | what it holds |
|---|---|
| `Objects.dfy` | Secrets, SecretSyncs, ownership, the rewrite of a Secret, vault names |
| `History.dfy` | histories, what the environment may do, what a step of the operator must satisfy, the invariants |
| `Runs.dfy` | theorems about every history: ownership, finalizer, latest wins, status |
| `Api.dfy` | the API server with interference, faults and stale, filtered caches |
| `Writer.dfy` | the in-memory Secret and the `SecretWriter` |
| `Engine.dfy` | the sync engine and the controller's write gate |
| `Arbitration.dfy` | which of several SecretSyncs may claim a target |
| `Plan.dfy` | one undisturbed reconcile as a function |
| `Convergence.dfy` | drift repair, quiescence, competing claims over whole runs |
| `Rounds.dfy` | when one round of reconciles is enough |
| `Evidence.dfy` | the facts a reconcile carries from call to call |
| `Reconcile.dfy` | the controller's methods |
| `Playing.dfy` | the controller on an undisturbed server plays the runs that `Convergence.dfy` speaks of |
| `Listener.dfy` | the queue listener and its log |
| `Accounting.dfy` | what every listener log satisfies |
| `Delivery.dfy` | queue, event channel, work queue and workers as one state machine |
| `Chronicle.dfy` | what the state of that machine stands for, and its promise, said of the events alone |

## How to read the main contracts

- `Inv(w)` says that the history is one the operator and its environment can produce; every call
  that changes something must extend it by a legal step, so the theorems of `Runs.dfy`, which speak
  of all such histories, hold of whatever the methods do. `History.AnyStart` shows that a run may
  start from any cluster.
- `Later(k, a, b)`: anything may have happened from `a` to `b` except a step on behalf of SecretSync
  `k`. `Acts(k, a, b, who)`: the same, followed by exactly one entry of `who`. An error result of the
  writer promises `Later`, a nil result `Acts`: no accepted mutation, or exactly one.
- `Untouched(k, a, b)`: nothing was done to any Secret on behalf of `k`.
- `Answered(...)`: how a live SecretSync is answered. An error or a positive delay; no error means that the
  outcome has been persisted and asks for no backoff; and when no call other than the Secret write has
  failed (`Server.failed`) and a reader is configured, the outcome has been persisted and there is an
  error exactly for TransientError, SecretWriteFailed and AuthenticationFailed. Failing leaves every Secret untouched, and only Secrets of the
  namespace under other names are ever swept, after InSync has been persisted.
  InSync without an error means that every stale Secret on the list read for the sweep is gone.
- `WriteScript(want, cs, o)`: the calls `cs` that CreateOrUpdate makes and its outcome `o`, as the answers
  decide them, on a quiet server or not. `Judged(...)`: why a reconcile ended as it did. A blocked claim
  reads and writes nothing; a reason that blames the vault is the one `Engine.Classified` gives for the answer
  to the one vault read of this reconcile, given whether the target was already ours in the snapshot looked at;
  TargetConflict and TargetImmutable rest on what the target held at an entry no older than
  the cache at the start, SecretWriteFailed on a failed call; and InSync is sound.
- `ProofHolds(h, i, k, ss, s, p)`: why a status may say InSync at entry `i`. The target held exactly what
  `p.want` says, by the write made after the vault read or in the snapshot the reconcile had looked at; from
  the vault read to `i` it did nothing besides that write and ensuring the finalizer; the sync time is a
  clock reading between the two; and no earlier report had looked at a later snapshot. Every InSync report
  in a history carries such a proof. `Sound` says of one reconcile that the vault was read and the target
  looked at during it.
- What the code's tests mean is said in the data they look at: `OursToWrite` and `SomebodyElses` in labels and
  owner references, `StrongerClaim` and `Older` in creation times and names, `SameSource` in characters,
  `Classified` as a table. `Objects.WriterTests`, `Arbitration.BlockedByStronger`,
  `Objects.EqualFoldIgnoresCase` and `Engine.VerdictDecides` connect the two.
- `quiet`, `uncached`, `Fresh`: no interference and no faults; an uncached reader is wired; both
  caches show what the server holds.

## Assumptions

- Create succeeds only when the name is free. Update succeeds only when the resourceVersion matches,
  and that is checked before validation. One resourceVersion means one content.
- A frozen Secret refuses changes of its data. A call either takes effect and succeeds or fails
  without effect; a timeout is such a failure.
- Cached reads return copies and never go backwards. One SecretSync is never reconciled by two
  workers at once (`internal/controller/secretsync_controller.go:76`).
- SetControllerReference refuses an object that a different controller owns and otherwise replaces the
  caller's own reference or appends one. References are told apart by uid; name and uid agree, and no
  reference is left over from an earlier SecretSync of the same name.
- Only the operator edits its finalizer and the status subresource. A uid names one object for ever,
  a deletion mark is never taken back, and an object that carries the finalizer is not removed.
- The vault's history of a secret is append-only, and its latest version is what a read returns. Names
  of vaults and vault secrets are ASCII.
- A queue message announces a version the vault already holds.

Four expectations that fail of the code, which is kept as it is, each with an input and with the exact
condition under which it holds:

- A Delete carries no precondition, so it need not remove the Secret that its worker had read
  (`Runs.DeleteCanHitAnother`). It does if and only if the resourceVersions agree, and then the Secret was
  labelled and its own (`Runs.DeleteHitsWhatWasRead`).
- `applyUpdate` tests immutability before ownership, so a Secret that another SecretSync controls can be
  reported as TargetImmutable (`Writer.FrozenForeignIsImmutable`). It is reported as a conflict if and only
  if it is not both labelled and frozen with other data (`Writer.ForeignIsConflictUnlessFrozen`); with fresh
  caches always (`Plan.ForeignIsConflict`).
- Deciding from a stale cached copy gives the outcome that reading the server would if and only if
  `CacheGoodEnough` holds of the copy (`Writer.SecretWriter.CreateOrUpdate`, for every state of the cache);
  a copy of a Secret that has meanwhile been deleted never is good enough (`Writer.DeletedUnderCache`).
- One round of reconciles always leaves exactly one holder of a contested target and refuses all other
  claimants, but the holder may have been refused as well (`Convergence.BothDefeated`). The round decides
  the contest, with the holder InSync, if and only if every claimant that is live at the start and
  precedes the initial holder has a turn before the holder's last turn; without an initial holder it
  always does (`Rounds.OneRoundDecides`). Two rounds always decide it (`Convergence.ClaimsConverge`).

## Model

| member | source | states |
|---|---|---|
| Objects.UpsertController | internal/sync/writer.go:243 | Setting the controller reference on a Secret that nobody else controls makes the caller its controller, wherever references to others stand in the list |
| Objects.UpsertKeepsOthers | internal/sync/writer.go:243 | It keeps every reference to anybody else, in order |
| Objects.ControllerIsTheFirst | internal/sync/writer.go:186-188 | The controller of a Secret is the owner of the first reference that is marked as controller, and nobody when none is |
| Objects.WriterTests | internal/sync/writer.go:228-253 | A Secret may be written if and only if it carries the managed-by label or the caller is its controller; it is foreign if and only if another is; an immutable one blocks the write if and only if its data differ from the one wanted entry |
| Objects.RewriteExact | internal/sync/writer.go:409-431 | A write over a Secret nobody else controls leaves an Opaque Secret with exactly the wanted data, the vault, the vault secret and the version each in its annotation, the label and the controller, and keeps the immutable flag, all other labels and annotations, and other owners |
| Objects.ExactMeans | internal/sync/engine.go:176-182 | Exact means: the one wanted entry, the version annotation, the managed-by label, and this SecretSync as controller |
| Objects.DataMatchesExactly | internal/sync/writer.go:449-460 | The three-part data check holds exactly when the data is the one wanted key with the wanted value |
| Objects.EqualFoldIgnoresCase | internal/events/listener.go:368-369 | Two names are folded to the same if and only if they have one length and at each place the same character or the two cases of one letter |
| Objects.FoldRefAgrees | internal/events/listener.go:368-369 | Two vault references name the same secret exactly when both names agree letter for letter but for upper and lower case |
| History.AnyStart | internal/controller/secretsync_controller.go:138-148 | Every cluster is a possible start of a run: the invariants the methods require can always be met |
| History.Extend | internal/sync/writer.go:223-262 | Any legal step of the operator other than letting go of a finalizer extends a valid history to a valid history |
| History.ExtendRemoval | internal/controller/secretsync_controller.go:666-671 | So does the removal of a finalizer, once the cache has shown the deletion mark |
| History.FinalizerKept | internal/controller/secretsync_controller.go:443-448 | A SecretSync that carries the finalizer exists and keeps it until the operator itself removes it |
| History.SameSecretVersion | internal/sync/writer.go:257 | Two sightings of a Secret under one resourceVersion are the same Secret |
| History.HeldIsCurrent | internal/sync/writer.go:257 | A copy whose resourceVersion is still the server's is what the server holds |
| History.VaultMonotone | internal/sync/engine.go:159 | Along a run the version list of a vault secret only grows at its end |
| History.ProofLater | internal/controller/secretsync_controller.go:476-598 | Evidence for InSync stays evidence as long as nothing else is done for the SecretSync |
| Runs.NoTakeover | internal/sync/writer.go:186-188 | No step of the operator moves a Secret from one controller to another; a Secret it changes carried the managed-by label or was controlled by the acting SecretSync, and by nobody else, just before; it ends up its own, and keeps its immutable flag |
| Runs.WritesWhatIsDeclared | internal/controller/secretsync_controller.go:815-833 | Every accepted write goes to the declared target, by default the one named like the SecretSync, and leaves there an Opaque Secret whose one entry is the latest vault value under the declared key, by default the name of the vault secret, with the origin and the version in the annotations |
| Runs.ControllerStays | internal/sync/writer.go:243-256 | As long as a Secret exists and no other actor edits it, its controller stays the same over any run of the operator |
| Runs.WritesAreGuarded | internal/controller/secretsync_controller.go:432-448 | At every accepted Secret write the SecretSync written for exists on the server and carries the finalizer, however stale the copy the reconcile started from |
| Runs.WriterOutlivesWrite | internal/controller/secretsync_controller.go:640-672 | A SecretSync that wrote a Secret disappears only after the operator has removed its finalizer |
| Runs.RemovalRespectsOthers | internal/controller/secretsync_controller.go:666-671 | Letting go of the finalizer removes the SecretSync unless others hold it, and changes nothing else |
| Runs.DeleteHitsWhatWasRead | internal/controller/secretsync_controller.go:696-710 | An accepted delete removes the Secret its worker had read if and only if the resourceVersions agree, and then that Secret was labelled and controlled by the acting SecretSync |
| Runs.DeleteCanHitAnother | internal/controller/secretsync_controller.go:655 | A history in which the delete removes a Secret that another owner has put in place since |
| Runs.StoresLatest | internal/controller/secretsync_controller.go:476-485 | Every stored value is the one that was latest in the vault at an instant after this SecretSync's previous write |
| Runs.LatestWins | internal/sync/engine.go:159-199 | For one SecretSync and one vault secret, a later write never stores an older version, whatever the notifications did |
| Runs.StatusOrigin | internal/controller/secretsync_controller.go:587-597 | A status is born empty and changes only through its own SecretSync's legal status writes |
| Runs.KeepsLastKnownGood | internal/sync/engine.go:102-113 | At every instant syncedVersion and lastSyncTime are those of the last reconcile that persisted InSync for this object, or empty |
| Runs.StatusConsistent | internal/controller/secretsync_controller.go:741-767 | A status that was ever written has exactly one condition, Ready: True and Synced when InSync, False and the reason when Failing, else Unknown, at the generation observed; its transition time is what the clock said when the reconcile of the last flip read it, after which it did nothing before its report |
| Runs.OtherConditionsStay | internal/controller/secretsync_controller.go:765-766 | Setting Ready leaves the conditions of every other type as they were, in order |
| Runs.StateNeverFallsBack | internal/controller/secretsync_controller.go:348-354 | Along the life of an object the state never returns to empty or, once terminal, to Pending |
| Runs.InSyncIsSound | internal/controller/secretsync_controller.go:476-598 | Whenever a SecretSync reads InSync, its last report stored that status over the declaration then on the server, and the proof of that report holds: the target held exactly the value, version, label and controller, by the write made after the vault read or in the snapshot looked at, the sync time is a clock reading after the vault read, and nothing else was done from there to the report |
| Runs.EvidenceMovesOn | internal/controller/secretsync_controller.go:394-430 | Of two InSync reports of a SecretSync the later rests on a vault read after the earlier report, on a snapshot no older than what the earlier had looked at or a write after the earlier report, and on a sync time no earlier |
| Api.Server.Create | internal/sync/writer.go:284-289 | An accepted Create hits a free name and is one legal step; anything else leaves no entry |
| Api.Server.Update | internal/sync/writer.go:257-259 | An accepted Update replaces the very Secret it was built from, which was writable and not foreign at that instant; on a quiet server the reply is fixed by existence, version and immutability in that order |
| Api.Server.ReRead | internal/sync/writer.go:337-343 | The recovery read returns the truth when an uncached reader is wired, and otherwise some past copy from the filtered cache |
| Api.Server.Delete | internal/controller/secretsync_controller.go:655 | A Delete removes whatever is at the target now, on the strength of a copy that was labelled and owned |
| Api.Server.PutStatus | internal/controller/secretsync_controller.go:595-597 | A status write is accepted only over the current copy, and only as a legal status step with its proof |
| Api.Server.AddFinalizer | internal/controller/secretsync_controller.go:443-448 | The finalizer is added only to the current, unmarked copy |
| Api.Server.RemoveFinalizer | internal/controller/secretsync_controller.go:666-671 | The finalizer is removed only from the current copy of a SecretSync marked for deletion, which then goes unless others hold it |
| Writer.SecretObject.Populate | internal/sync/writer.go:409-431 | The in-place stamping of the object equals the stamping of its value, and leaves its resourceVersion alone |
| Writer.SecretObject.SetController | internal/sync/writer.go:243-256 | Refuses exactly the objects another controller owns, and then changes nothing |
| Writer.SecretWriter.CreateOrUpdate | internal/sync/writer.go:138-163 | Under any interference: the calls made and the outcome are those the answers decide, every copy looked at is one the target held since the cache at the start, nil means exactly one accepted write, over a Secret that was free, or labelled or its own and nobody else's, at that instant, an error none, with at most three Gets, one Create and two Updates; undisturbed, however stale the cache, the outcome equals that of reading the server once if and only if the cached copy is good enough, a Secret neither labelled nor its own is refused, as a conflict whenever the cache hides it, and the server ends with the rewritten target |
| Writer.DirectWriteDecides | internal/sync/writer.go:138-163 | Reading the server once decides by the metadata: absent is created; neither labelled nor controlled by the caller is a conflict; frozen with other data is immutable; controlled by another is a conflict; anything else is rewritten |
| Writer.StrangerIsRefused | internal/sync/writer.go:186-188 | However stale the cache, a Secret that is neither labelled nor controlled by the caller is refused, and as a conflict unless a labelled earlier copy is still cached |
| Writer.SecretWriter.Create | internal/sync/writer.go:268-292 | Under any interference: one Create, and after AlreadyExists, and only then, the recovery; the outcome is what the answers decide |
| Writer.SecretWriter.RecoverAlreadyExists | internal/sync/writer.go:314-331 | Under any interference: an occupied name is resolved by one re-read; the copy it shows is updated if writable and is a conflict otherwise, and a failed re-read is handed back |
| Writer.SecretWriter.Update | internal/sync/writer.go:201-217 | Under any interference: one attempt, the conflict recovery exactly after a version conflict, the classification exactly after an Invalid |
| Writer.SecretWriter.ApplyUpdate | internal/sync/writer.go:223-262 | Under any interference: immutability, then ownership of the copy at hand, each without a call, then one Update of that very copy and its answer |
| Writer.SecretWriter.RecoverConflict | internal/sync/writer.go:359-372 | Under any interference: one re-read, then one attempt over the copy it shows if that is writable, a conflict if not |
| Writer.SecretWriter.ClassifyInvalid | internal/sync/writer.go:390-403 | Never writes; upgrades a rejection to TargetImmutable only if the re-read Secret is frozen with other data |
| Writer.OutcomeHasCause | internal/sync/writer.go:138-403 | Whatever the answers: nil is one accepted call, the last; a conflict or an immutable target is a copy that was looked at; any other error is a failed call; and no error follows an accepted call |
| Writer.AnswersDecide | internal/sync/writer.go:138-403 | The same calls and answers never end in two outcomes |
| Writer.ForeignIsConflictUnlessFrozen | internal/sync/writer.go:238-253 | A Secret of another controller is reported as a conflict if and only if it is not both labelled and frozen with other data |
| Writer.FrozenForeignIsImmutable | internal/sync/writer.go:238-253 | An input at which a Secret of another controller is reported as immutable |
| Writer.CachedWriteAgrees | internal/sync/writer.go:138-163 | Deciding from a past cached copy gives the outcome of reading the server once if and only if the copy is good enough |
| Writer.CacheShowsPast | internal/controller/secretsync_controller.go:121-148 | Whatever the filtered cache shows, however far it lags, is a past version of the Secret, so the equivalence applies to it |
| Writer.DeletedUnderCache | internal/sync/writer.go:201-217 | With a cached copy of a deleted Secret the write fails where a direct one would create |
| Engine.ClassifyReaderError | internal/sync/engine.go:245-271 | Each reason exactly for its failures: source-deleted for a missing secret with a target that is already ours, secret-not-found for a missing one otherwise, source-disabled, access-denied and authentication-failed for theirs, transient for transient and unclassified ones |
| Engine.VerdictDecides | internal/sync/engine.go:129-199 | A target without the label or of another controller is a conflict; otherwise a failed read is reported by that table, with ours meaning labelled and controlled by this SecretSync, and keeps the last good values, and a read value is a success at its version and time |
| Engine.SyncEngine.Sync | internal/sync/engine.go:84-200 | On failure the Secret it was handed is unchanged; a taken target is refused without reading the vault; otherwise the vault was read once, the sync time is what the clock said after that, and the object returned is the input, stamped in place unless it already was up to date |
| Engine.Fill | internal/sync/engine.go:184-194 | The object returned is the one passed in, changed in place, or a new one |
| Engine.UpToDateIsExact | internal/sync/engine.go:176-182 | The idempotent skip is taken only over a Secret that already says exactly what the vault asks for |
| Engine.GateMatchesSkip | internal/controller/secretsync_controller.go:476-485 | Evaluated on the snapshot taken before the engine ran, the write gate opens exactly when the engine did not skip, and the value it hands on is the vault's |
| Engine.LateSnapshotNeverWrites | internal/controller/secretsync_controller.go:409-424 | On a snapshot taken after the engine ran the gate would never open for an existing Secret |
| Arbitration.FindConflictingOwner | internal/controller/secretsync_controller.go:846-870 | The search loop finds a conflict exactly when the cached list holds another SecretSync of the namespace, for the same target, not itself refused for a conflict, that was created earlier or at the same time under a smaller name |
| Arbitration.LessFromTheFirstDifference | internal/controller/secretsync_controller.go:881 | A name is smaller exactly when at the first difference it has ended or has the smaller character |
| Arbitration.PrecedenceIsAge | internal/controller/secretsync_controller.go:876-882 | First writer wins: the earlier creation time precedes, and at equal times the smaller name |
| Arbitration.BlockedByStronger | internal/controller/secretsync_controller.go:846-870 | A claim is blocked if and only if there is a stronger one in those terms |
| Arbitration.LessTotal | internal/controller/secretsync_controller.go:881 | The order on names is total and asymmetric |
| Arbitration.LessTransitive | internal/controller/secretsync_controller.go:881 | and transitive |
| Arbitration.PrecedenceIsStrictTotalOrder | internal/controller/secretsync_controller.go:876-882 | Precedence is age with ties broken by name, and is irreflexive, asymmetric, total and transitive on the distinctly named claimants of a namespace |
| Arbitration.OneLiveClaimWins | internal/controller/secretsync_controller.go:846-870 | Among the live claimants of a target exactly one is unblocked: the one created first, the smaller name deciding ties |
| Arbitration.SomebodyIsUnblocked | internal/controller/secretsync_controller.go:862-864 | In every nonempty set of claimants, defeated ones included, somebody is unblocked |
| Plan.SyncYields | internal/controller/secretsync_controller.go:426-627 | An unblocked healthy claim on a target that does not resist ends InSync with exactly the wanted Secret, everything stale swept and nothing else changed |
| Plan.SyncResists | internal/controller/secretsync_controller.go:540-584 | On a target that does resist it ends Failing and every Secret is left alone; the reason is TargetImmutable exactly when the occupant is ours to write but frozen with other data, and TargetConflict otherwise |
| Plan.ForeignIsConflict | internal/sync/engine.go:140-149 | With fresh caches a Secret of another controller is always reported as a conflict |
| Convergence.DriftRepair | internal/sync/engine.go:129-199 | One reconcile restores the target if and only if its occupant is not frozen with other data, not foreign, and labelled or still controlled; otherwise nothing is touched and the reason is TargetImmutable exactly for an occupant that is ours to write but frozen with other data, else TargetConflict |
| Convergence.ObstaclesMean | internal/sync/writer.go:223-253 | An occupant yields if and only if it carries the label or is controlled by this SecretSync, no other controls it, and it is not immutable with other data; it is only frozen if and only if all but the last hold |
| Convergence.InSyncCause | internal/controller/secretsync_controller.go:612-616 | A reconcile ends InSync only for a live, unblocked claim with a readable source and a target that does not resist |
| Convergence.Quiescence | internal/controller/secretsync_controller.go:684-712 | After a reconcile that ends InSync the only labelled Secret of this owner in its namespace is the target, and reconciling again at any time touches no Secret and stays InSync at the same version |
| Convergence.Footprint | internal/controller/secretsync_controller.go:684-712 | A reconcile changes no Secret besides its target and Secrets its SecretSync controls, and no SecretSync besides its own |
| Convergence.MemberStep | internal/controller/secretsync_controller.go:356-392 | One reconcile of a claimant defeats it, or makes it the holder and InSync, and keeps the contest well formed |
| Convergence.BystanderStep | internal/controller/secretsync_controller.go:315-627 | A reconcile of any other SecretSync leaves the contest as it is |
| Convergence.RoundSettles | internal/controller/secretsync_controller.go:846-882 | One round in any order leaves exactly one holder, and all other claimants defeated |
| Convergence.SettledRun | internal/controller/secretsync_controller.go:846-882 | A settled contest stays settled over every further run, and decided once the holder has had a turn |
| Convergence.ClaimsConverge | internal/controller/secretsync_controller.go:356-392 | From any statuses, two rounds in any order and among any other reconciles leave one claimant InSync holding the target and all others Failing with TargetConflict, for ever after |
| Convergence.OneRoundIsNotEnough | internal/controller/secretsync_controller.go:859-867 | A holder can be blocked by a claim that is then refused itself, so that one round leaves both defeated |
| Convergence.BothDefeated | internal/controller/secretsync_controller.go:859-867 | A concrete cluster of two claimants in which one round leaves both Failing with TargetConflict |
| Rounds.OneRoundDecides | internal/controller/secretsync_controller.go:846-882 | One round in any order decides the contest, its holder InSync and all others defeated, if and only if every claimant that is live at the start and precedes the initial holder has a turn before the holder's last; without a holder it always does |
| Rounds.FreeTargetGoesToTheOldest | internal/controller/secretsync_controller.go:840-882 | One round over a free target, in any order, ends with the target held by a claimant that is InSync and older than every other claimant live at the start, and with all others refused |
| Rounds.TurnDoes | internal/controller/secretsync_controller.go:356-392 | One turn refuses a claimant if a live claim precedes it or another holds the target, and otherwise makes it the InSync holder; everybody else stays as it was |
| Playing.Run | internal/controller/secretsync_controller.go:315-627 | On an undisturbed server with caches caught up before each turn, the controller leaves exactly what the runs of the convergence theorems say |
| Evidence.CopyIsGuarded | internal/controller/secretsync_controller.go:341-343 | A cached copy with the finalizer and without a deletion mark proves that the server still has the SecretSync with its finalizer |
| Evidence.WriteIsExact | internal/sync/writer.go:223-262 | Right after an accepted write the target on the server is exactly what was wanted |
| Evidence.Committed | internal/controller/secretsync_controller.go:443-485 | From the vault read to the write the worker has only ensured the finalizer, so the write it is about to make is a legal one |
| Evidence.WriteProof | internal/controller/secretsync_controller.go:485-486 | An accepted write proves InSync: the target is exact at that write, which follows the vault read of the same reconcile |
| Evidence.SkipProof | internal/controller/secretsync_controller.go:476-477 | So does the snapshot over which the engine skipped, which the cache showed after the reconcile began |
| Evidence.CurrentCacheWrite | internal/sync/writer.go:138-163 | With a current filtered cache the cached path and the direct one agree always, hidden Secrets included |
| Reconcile.Reconciler.ReconcileInterval | internal/controller/secretsync_controller.go:201-206 | The requeue delay is the configured one, and four hours when none is |
| Reconcile.Reconciler.DeleteStaleManagedSecrets | internal/controller/secretsync_controller.go:684-712 | Under any interference the sweep deletes only Secrets of the namespace under other names, on labelled and owned copies, and success means that every stale Secret on the list it read was deleted or found gone; undisturbed it deletes exactly those |
| Reconcile.Reconciler.ReconcileDelete | internal/controller/secretsync_controller.go:640-672 | Under any interference the finalizer goes last, after an instant no older than the caches at the start at which the target held no Secret of this owner, and not at all when a call fails; nothing but the target is deleted; undisturbed the method does what the plan says |
| Reconcile.Reconciler.ReleaseTarget | internal/controller/secretsync_controller.go:647-664 | Success means that the target was seen free of this owner; undisturbed exactly an owned target is deleted |
| Reconcile.Reconciler.Observe | internal/controller/secretsync_controller.go:394-430 | Over the aliased object: the gate is open exactly when the engine did not skip, the value is the vault's at an instant inside this reconcile, the snapshot is one the cache showed inside it, and the verdict rests on what the vault answered |
| Reconcile.Reconciler.EnsureFinalizer | internal/controller/secretsync_controller.go:432-448 | Before any write the server holds the SecretSync with the finalizer, and nothing else was done |
| Reconcile.Reconciler.WriteTarget | internal/controller/secretsync_controller.go:483-486 | A nil outcome is one accepted write after which the target is exact; any other leaves every Secret untouched and is what the answered calls decide |
| Reconcile.Reconciler.Attempt | internal/controller/secretsync_controller.go:432-584 | A write that was not accepted becomes TargetConflict or TargetImmutable over a copy it had looked at, or SecretWriteFailed after a failed call; an accepted or needless one stays InSync with its proof |
| Reconcile.Reconciler.ReportWriteFailure | internal/controller/secretsync_controller.go:487-539 | The outcome is SecretWriteFailed with the last good values; it is persisted unless the status write fails, and no Secret is touched |
| Reconcile.Reconciler.Conclude | internal/controller/secretsync_controller.go:587-626 | The outcome is persisted, its transition time a clock reading, unless a call fails; an error is returned exactly for TransientError, SecretWriteFailed and AuthenticationFailed or after a failed call, and otherwise the configured delay or its default; and InSync without an error means that a sweep after the report has removed every stale Secret it listed, and nothing else |
| Reconcile.Reconciler.Fulfil | internal/controller/secretsync_controller.go:432-627 | Guard, write, report: InSync only with a proof from this reconcile, Failing only untouched and for what the engine said or the calls of the write showed, answered as the outcome asks; undisturbed exactly the plan |
| Reconcile.Reconciler.Announce | internal/controller/secretsync_controller.go:348-354 | An untouched status becomes Pending before anything else, any other state stays |
| Reconcile.Reconciler.Arbitrate | internal/controller/secretsync_controller.go:356-363 | Blocked exactly when the cached list holds a stronger live claim |
| Reconcile.Reconciler.Claim | internal/controller/secretsync_controller.go:345-627 | The whole path of a live SecretSync: a claim the cached list shows blocked ends in TargetConflict with no Secret touched and no vault read; any other failure has its cause in what the vault and the calls answered and what the target held; InSync is sound |
| Reconcile.Reconciler.Reconcile | internal/controller/secretsync_controller.go:315-627 | Under any interference: a live SecretSync is announced and arbitrated first, and a claim that an older live one contests ends in TargetConflict; Failing leaves every Secret untouched, and its reason is the one the table gives for the answer of the vault, or rests on the copies looked at or the calls failed in this reconcile; InSync rests on a vault read of this reconcile and on its write or a snapshot its cache showed during it; no error means that the outcome is stored and, for InSync, that the listed stale Secrets are gone; when a reader is configured and no call but the Secret write failed the outcome is stored and an error is returned exactly for TransientError, SecretWriteFailed and AuthenticationFailed; otherwise the configured delay or four hours, unless the SecretSync is leaving. Undisturbed with fresh caches: exactly the planned reconcile |
| Listener.MatchingSecretSyncs | internal/events/listener.go:360-374 | The loop collects exactly the SecretSyncs that name the announced secret but for upper and lower case, in list order |
| Listener.MatchIgnoresCase | internal/events/listener.go:368-369 | A SecretSync matches a notification if and only if vault and secret names agree letter for letter but for upper and lower case |
| Listener.MatchingExactly | internal/events/listener.go:366-373 | A key is collected if and only if a listed SecretSync of that key names the announced vault and secret, letter for letter but for upper and lower case |
| Listener.QueueListener.constructor | internal/events/listener.go:209-226 | A zero batch size stands for 32 and a zero poison threshold for 5; nothing has happened yet |
| Listener.QueueListener.RecordReceiveSuccess | internal/events/metrics.go:94-101 | Resets the failure count and sets the time, in the state and in both gauges |
| Listener.QueueListener.RecordReceiveFailure | internal/events/metrics.go:107-112 | Raises the failure count and its gauge, and leaves the time alone |
| Listener.QueueListener.RecordMessageOutcome | internal/events/metrics.go:129-131 | Raises the one counter of that outcome |
| Listener.QueueListener.DispatchEvent | internal/events/listener.go:299-347 | What listing answered is on record. List failure leaves the message; a list without a match discards it; otherwise every match of that list is sent in order before the count and the delete, and a cancelled send leaves the message |
| Listener.QueueListener.Process | internal/events/listener.go:267-347 | What handling a message does is one of seven courses, each with its exact trace, the answer of listing included, and its one counter |
| Listener.QueueListener.HandleMessage | internal/events/listener.go:267-347 | Keeps the counters and the log in step with what has been done |
| Listener.QueueListener.PollOnce | internal/events/listener.go:244-259 | One receive, then every received message once and in order; a failed receive handles nothing |
| Listener.QueueListener.Start | internal/events/listener.go:177-203 | Keeps polling after failures, one receive a poll; the counters always say what the log says |
| Listener.TraceCounts | internal/events/listener.go:267-347 | Handling a message is counted at most once, exactly as often as it is deleted, and is no receive |
| Accounting.DeletesFollowCounts | internal/events/listener.go:267-347 | Over any run every delete directly follows the count of its message, and every count is directly followed by its delete |
| Accounting.CountersSumToDeletes | internal/events/metrics.go:120-131 | Over any run the five outcome counters sum to the number of delete attempts |
| Accounting.DispatchedReachesAll | internal/events/listener.go:299-346 | Every count fits its message: poisoned exactly beyond the threshold, undecodable and ignored exactly for what parsing yielded. A message counted dispatched was parsed, the list was read for it, and it was sent once to each match of that recorded list, in list order, directly before; a message counted unmatched was looked up in a recorded list without a match |
| Accounting.ParsedAtMostThreshold | internal/events/listener.go:270-278 | If each delivery raises the dequeue count from one, a message is parsed at most threshold times |
| Accounting.FailuresAreTheTrailingRun | internal/events/metrics.go:94-112 | The failure counter is the length of the run of failed receives at the end of the log |
| Delivery.NeverLost | internal/events/listener.go:325-346 | After a send, in every later state: a reconcile of it that has yet to read is on its way, or it has since read that version or a newer one, or its latest reconcile ended since without reading and is retried unless it ended for good |
| Delivery.NeverForgotten | internal/controller/secretsync_controller.go:618-626 | A reconcile that returned an error or a delay stays scheduled until it runs |
| Delivery.DeletedMeansKept | internal/events/listener.go:299-346 | In any run in which the listener did what a listener does: once a message counted dispatched is deleted, the list read for it is on record and nothing it announced is lost on any SecretSync that list shows as matching and as declared |
| Delivery.CoveredStep | internal/controller/secretsync_controller.go:929-936 | No event of the channel, the work queue, the workers or the vault loses a sent notification |
| Chronicle.NothingSentIsLost | internal/events/listener.go:325-346 | The same of the events of any run alone: after a send, a reconcile that has yet to read is underway, asked for or begun; or the vault was read for it later, after more versions had been published than the announced one; or its last reconcile ended later without reading and is retried if it asked for that |
| Chronicle.StateIsHistory | internal/controller/secretsync_controller.go:929-936 | The channel holds the sends not yet taken, the work queue what was asked for and not begun, the timer what was put off and not woken, the workers what has begun and not ended, and they have read if the vault was read since |
| Chronicle.VersionsArePublished | internal/events/listener.go:368-369 | The versions of a vault secret are those published under any spelling of its name that differs in case only |
| Chronicle.LastReadIsLatest | internal/controller/secretsync_controller.go:394-430 | The last read on record is the last there was, and saw the latest version published by then |
| Chronicle.LastEndIsLast | internal/controller/secretsync_controller.go:618-626 | The last end on record is the last there was, with what it asked for and whether the vault had been read in it |

## Left out

- Convergence.DriftRepair: does not model that the API server may refuse to change the type of a Secret, which is a rule of the server that nothing in the repository states; a target of another type counts as one that can be rewritten.
- Azure clients, credentials and HTTP error classification: the vault is an oracle that returns the latest version or one of the sentinel failures, the queue one that returns messages or fails.
- Base64 and JSON decoding of messages: a message body is what parsing it yields.
- Status messages, Event texts, log lines and metric registration; the sync-result counter and the metrics state collector.
- Deadlines, detached contexts and poll intervals: a timeout is a failed call, time is a counter that never runs backwards.
- Cancellation of the poll loop: `Start` runs for a given number of polls, and a cancelled send shows as a send that is not accepted.
- An Update that changes nothing still stores a new version here.
- Owner-reference garbage collection is only one of the things other actors may do.
- Label, annotation and reason strings are enumerations; owner references carry only uid and controller flag.
- The missing-client check of the writer; a reconciler always has a server.
- Case folding beyond ASCII in the match of vault names.
- Delivery: vault references of SecretSyncs do not change within a run there, and the channel and the work queue are unbounded.
- Listener.QueueListener.Start: does not model sleeping between polls, because only the order of polls matters.
- Command-line flags, manager wiring, leader election, the Helm chart and the release scripts.
