/**
 What holds along every run: theorems about all valid histories, whatever the interleaving of
 reconciles, of queue messages and of other actors' edits.
 */
module Runs {
  import opened Objects
  import opened History

  // ----- Ownership -----

  /** No step of the operator moves a Secret from one controller to another. */
  lemma NoTakeover(h: seq<Entry>, i: nat, s: Key)
    requires ValidHistory(h) && 0 < i < |h| && h[i].who.Op?
    requires s in h[i - 1].now.secrets && s in h[i].now.secrets
    ensures ControllerOf(h[i - 1].now.secrets[s].obj.owners).Some? ==>
              ControllerOf(h[i].now.secrets[s].obj.owners) == ControllerOf(h[i - 1].now.secrets[s].obj.owners)
    ensures h[i].now.secrets[s] != h[i - 1].now.secrets[s] ==>
              && OursToWrite(h[i - 1].now.secrets[s].obj, h[i].who.uid)
              && !SomebodyElses(h[i - 1].now.secrets[s].obj, h[i].who.uid)
              && ControlledBy(h[i].now.secrets[s].obj, h[i].who.uid)
              && h[i].now.secrets[s].obj.immutable == h[i - 1].now.secrets[s].obj.immutable
  {
    hide ValidHistory;
    LegalAt(h, i);
    WriterTests(h[i - 1].now.secrets[s].obj, h[i].who.uid, "", "");
    if h[i].who.step.WriteSecret? && s == h[i].who.step.target {
      RewriteExact(Prior(h[i - 1].now.secrets, s), h[i].who.step.want);
    }
  }

  /**
   Every accepted write goes to the declared target, or to the one named like the SecretSync when none
   is declared, and leaves there exactly the vault's latest value under the declared key, or under the
   vault secret's name when none is declared, with its origin, its version, the label and the controller.
   */
  lemma WritesWhatIsDeclared(h: seq<Entry>, i: nat)
    requires ValidHistory(h) && 0 < i < |h| && h[i].who.Op? && h[i].who.step.WriteSecret?
    ensures var k, w := h[i].who.sync, h[i].who.step;
            && w.copy < i && w.seen < i && SyncIs(h[w.copy].now.syncs, k, h[i].who.uid)
            && var ss := h[w.copy].now.syncs[k].obj;
               var f := FoldRef(ss.source);
               && w.target.ns == k.ns
               && w.target.name == (if ss.secretName == "" then k.name else ss.secretName)
               && w.target in h[i].now.secrets
               && f in h[w.seen].now.vault && h[w.seen].now.vault[f] != []
               && var s, vs := h[i].now.secrets[w.target].obj, h[w.seen].now.vault[f];
                  && s.secretType == OpaqueSecret
                  && s.data == map[(if ss.dataKey == "" then ss.source.secret else ss.dataKey) := vs[|vs| - 1].value]
                  && s.annotations.Keys >= {AnnVault, AnnSecret, AnnVersion}
                  && s.annotations[AnnVault] == ss.source.vault && s.annotations[AnnSecret] == ss.source.secret
                  && s.annotations[AnnVersion] == vs[|vs| - 1].version
                  && OursToWrite(s, ss.uid) && !SomebodyElses(s, ss.uid)
  {
    hide ValidHistory, Rewrite, ControllerOf;
    LegalAt(h, i);
    var w := h[i].who.step;
    var prior := Prior(h[i - 1].now.secrets, w.target);
    assert !Foreign(BLANK, h[i].who.uid) by { BlankIsNobodys(h[i].who.uid); }
    RewriteExact(prior, w.want);
    WriterTests(Rewrite(prior, w.want), w.want.uid, "", "");
  }

  /** Letting go of a finalizer lets the SecretSync go, unless others hold it; it does nothing else. */
  lemma RemovalRespectsOthers(h: seq<Entry>, i: nat)
    requires ValidHistory(h) && 0 < i < |h| && h[i].who.Op? && h[i].who.step.RemoveFinalizer?
    ensures var k, a, b := h[i].who.sync, h[i - 1].now, h[i].now;
            && b.secrets == a.secrets && k in a.syncs && a.syncs[k].obj.deleting
            && (k in b.syncs <==> a.syncs[k].obj.otherFinalizers != {})
            && (k in b.syncs ==> b.syncs[k].obj == a.syncs[k].obj.(finalizer := false))
            && forall o | o != k :: (o in b.syncs <==> o in a.syncs) && (o in a.syncs ==> b.syncs[o] == a.syncs[o])
  {
    hide ValidHistory;
    LegalAt(h, i);
  }

  lemma BlankIsNobodys(uid: Uid)
    ensures !Foreign(BLANK, uid)
  {
  }

  /** As long as a Secret exists and nobody but the operator edits it, its controller stays. */
  lemma {:induction false} ControllerStays(h: seq<Entry>, i: nat, j: nat, s: Key, uid: Uid)
    requires ValidHistory(h) && i <= j < |h|
    requires forall m | i <= m <= j :: s in h[m].now.secrets
    requires forall m | i < m <= j && h[m].who.Env? :: h[m].now.secrets[s] == h[m - 1].now.secrets[s]
    requires ControlledBy(h[i].now.secrets[s].obj, uid)
    ensures ControlledBy(h[j].now.secrets[s].obj, uid)
  {
    hide ValidHistory;
    if i < j {
      ControllerStays(h, i, j - 1, s, uid);
      if h[j].who.Op? { NoTakeover(h, j, s); }
    }
  }

  /** Every accepted Secret write happens while its SecretSync exists and carries the finalizer. */
  lemma WritesAreGuarded(h: seq<Entry>, i: nat)
    requires ValidHistory(h) && 0 < i < |h| && h[i].who.Op? && h[i].who.step.WriteSecret?
    ensures Guarded(h[i - 1].now, h[i].who.sync, h[i].who.uid)
    ensures Guarded(h[i].now, h[i].who.sync, h[i].who.uid)
  {
    hide ValidHistory;
    LegalAt(h, i);
  }

  /** So the SecretSync that wrote is still there until the operator itself lets it go. */
  lemma WriterOutlivesWrite(h: seq<Entry>, i: nat, j: nat)
    requires ValidHistory(h) && 0 < i <= j < |h| && h[i].who.Op? && h[i].who.step.WriteSecret?
    requires !SyncIs(h[j].now.syncs, h[i].who.sync, h[i].who.uid)
    ensures exists m | i < m <= j :: h[m].who == Op(h[i].who.sync, h[i].who.uid, RemoveFinalizer)
  {
    hide ValidHistory;
    WritesAreGuarded(h, i);
    if forall m | i < m <= j :: h[m].who != Op(h[i].who.sync, h[i].who.uid, RemoveFinalizer) {
      FinalizerKept(h, i, j, h[i].who.sync, h[i].who.uid);
    }
  }

  // ----- Deletion -----

  /**
   What an accepted delete removes is the Secret its worker had read if and only if the versions agree,
   a condition the call could have carried; and then it was labelled and the worker's own.
   */
  lemma DeleteHitsWhatWasRead(h: seq<Entry>, i: nat, target: Key, seen: nat)
    requires ValidHistory(h) && 0 < i < |h| && h[i].who.Op? && h[i].who.step == DeleteSecret(target, seen)
    requires target in h[i - 1].now.secrets
    ensures seen < i && target in h[seen].now.secrets && target !in h[i].now.secrets
    ensures h[i - 1].now.secrets[target] == h[seen].now.secrets[target]
            <==> h[i - 1].now.secrets[target].rv == h[seen].now.secrets[target].rv
    ensures h[i - 1].now.secrets[target].rv == h[seen].now.secrets[target].rv ==>
              && Labelled(h[i - 1].now.secrets[target].obj)
              && ControlledBy(h[i - 1].now.secrets[target].obj, h[i].who.uid)
  {
    hide ValidHistory;
    LegalAt(h, i);
    if h[i - 1].now.secrets[target].rv == h[seen].now.secrets[target].rv {
      SameSecretVersion(h, seen, i - 1, target);
    }
  }

  function Owned(uid: Uid): Secret {
    BLANK.(labels := map[ManagedBy := Kvsynk8s], owners := [OwnerRef(uid, true)])
  }

  const TARGET := Key("n", "t")

  const OVERTAKEN: seq<Entry> := [
    Entry(Env, Snapshot(map[TARGET := Stored(Owned(1), 0)], map[], map[], 0)),
    Entry(Env, Snapshot(map[TARGET := Stored(Owned(2), 1)], map[], map[], 0)),
    Entry(Op(Key("n", "a"), 1, DeleteSecret(TARGET, 0)), Snapshot(map[], map[], map[], 0))]

  /** It need not be: a Secret that another owner has put in place after the read is deleted. */
  lemma DeleteCanHitAnother()
    ensures ValidHistory(OVERTAKEN)
    ensures OVERTAKEN[2].who == Op(Key("n", "a"), 1, DeleteSecret(TARGET, 0))
    ensures ControlledBy(OVERTAKEN[1].now.secrets[TARGET].obj, 2) && TARGET !in OVERTAKEN[2].now.secrets
  {
    var h := OVERTAKEN;
    forall i, k | 0 <= i < |h| && k in h[i].now.secrets ensures SecretAnchored(h, i, k) {
      assert k == TARGET && (i == 0 || i == 1);
    }
    assert h[1].now.secrets - {TARGET} == h[2].now.secrets;
    forall i | 0 < i < |h| ensures StepLegal(h, i) {
      assert i == 1 || i == 2;
    }
  }

  // ----- Latest wins -----

  /** Position, in the vault's own version history, of the version a write stores. */
  function VersionIndex(h: seq<Entry>, i: nat, source: VaultRef): int
    requires i < |h| && h[i].who.Op? && h[i].who.step.WriteSecret? && h[i].who.step.seen < |h|
  {
    var f := FoldRef(source);
    var vault := h[h[i].who.step.seen].now.vault;
    (if f in vault then |vault[f]| else 0) - 1
  }

  /** Two writes for one SecretSync with the same source: the later one never stores an older version. */
  lemma LatestWins(h: seq<Entry>, i: nat, j: nat, source: VaultRef)
    requires ValidHistory(h) && 0 < i < j < |h|
    requires h[i].who.Op? && h[j].who.Op? && h[i].who.sync == h[j].who.sync
    requires h[i].who.step.WriteSecret? && h[j].who.step.WriteSecret?
    requires source == VaultRef(h[i].who.step.want.vault, h[i].who.step.want.secret)
    requires source == VaultRef(h[j].who.step.want.vault, h[j].who.step.want.secret)
    ensures h[i].who.step.seen < |h| && h[j].who.step.seen < |h|
    ensures 0 <= VersionIndex(h, i, source) <= VersionIndex(h, j, source)
    ensures FoldRef(source) in h[|h| - 1].now.vault
    ensures var all := h[|h| - 1].now.vault[FoldRef(source)];
            && VersionIndex(h, j, source) < |all|
            && all[VersionIndex(h, j, source)] == VaultVersion(h[j].who.step.want.value, h[j].who.step.want.version)
            && all[VersionIndex(h, i, source)] == VaultVersion(h[i].who.step.want.value, h[i].who.step.want.version)
  {
    hide ValidHistory;
    StoresLatest(h, i);
    StoresLatest(h, j);
    assert OwnWrite(h[i], h[j].who.sync);
    assert i <= h[j].who.step.seen;
    VaultMonotone(h, h[i].who.step.seen, h[j].who.step.seen);
    VaultMonotone(h, h[j].who.step.seen, |h| - 1);
  }

  lemma StoresLatest(h: seq<Entry>, i: nat)
    requires ValidHistory(h) && 0 < i < |h| && h[i].who.Op? && h[i].who.step.WriteSecret?
    ensures var w := h[i].who.step;
            && w.seen < i
            && Latest(h[w.seen].now.vault, VaultRef(w.want.vault, w.want.secret)) ==
               Some(VaultVersion(w.want.value, w.want.version))
            && forall j | w.seen < j < i :: !OwnWrite(h[j], h[i].who.sync)
  {
    hide ValidHistory;
    LegalAt(h, i);
    var ss := h[h[i].who.step.copy].now.syncs[h[i].who.sync].obj;
    assert ss.source == VaultRef(ss.source.vault, ss.source.secret);
  }

  // ----- Status -----

  predicate FromScratch(h: seq<Entry>) {
    h != [] && forall k | k in h[0].now.syncs :: h[0].now.syncs[k].obj.status == EMPTY_STATUS
  }

  predicate Newborn(h: seq<Entry>, i: nat, k: Key)
    requires i < |h| && k in h[i].now.syncs
  {
    i == 0 || !SyncIs(h[i - 1].now.syncs, k, h[i].now.syncs[k].obj.uid)
  }

  predicate Reports(e: Entry, k: Key) {
    OwnEntry(e, k) && e.who.step.PutStatus?
  }

  /** One step and the status of one SecretSync: born empty, changed only by its own status writes. */
  lemma StatusOrigin(h: seq<Entry>, i: nat, k: Key)
    requires ValidHistory(h) && FromScratch(h) && i < |h| && k in h[i].now.syncs
    ensures Newborn(h, i, k) ==> h[i].now.syncs[k].obj.status == EMPTY_STATUS
    ensures !Newborn(h, i, k) && !Reports(h[i], k) ==>
              h[i].now.syncs[k].obj.status == h[i - 1].now.syncs[k].obj.status
    ensures !Newborn(h, i, k) && Reports(h[i], k) ==>
              && StatusStep(h[i - 1].now.syncs[k].obj, h[i].now.syncs[k].obj.status, h[i].who.step.now)
              && ClockRead(h, i, k, h[i].who.step.now)
  {
    hide ValidHistory, StatusStep, ClockRead, ProofHolds;
    if i > 0 {
      LegalAt(h, i);
    }
  }

  datatype Good = Good(version: string, lastSync: Option<nat>)

  /** What the last reconcile that persisted InSync for this very object recorded; empty if there was none. */
  function LastGood(h: seq<Entry>, i: nat, k: Key): Good
    requires i < |h|
  {
    if k !in h[i].now.syncs || Newborn(h, i, k) then Good("", None)
    else
      var s := h[i].now.syncs[k].obj.status;
      if Reports(h[i], k) && s.state == InSync then Good(s.syncedVersion, s.lastSync)
      else LastGood(h, i - 1, k)
  }

  lemma {:induction false} KeepsLastKnownGood(h: seq<Entry>, i: nat, k: Key)
    requires ValidHistory(h) && FromScratch(h) && i < |h| && k in h[i].now.syncs
    ensures LastGood(h, i, k) == Good(h[i].now.syncs[k].obj.status.syncedVersion, h[i].now.syncs[k].obj.status.lastSync)
  {
    hide ValidHistory, FromScratch;
    StatusOrigin(h, i, k);
    if !Newborn(h, i, k) {
      KeepsLastKnownGood(h, i - 1, k);
    }
  }

  /** The report at which the Ready condition of this very object last changed its truth value. */
  function LastFlip(h: seq<Entry>, i: nat, k: Key): Option<nat>
    requires i < |h|
  {
    if k !in h[i].now.syncs || Newborn(h, i, k) then None
    else
      var s, before := h[i].now.syncs[k].obj.status, h[i - 1].now.syncs[k].obj.status;
      if Reports(h[i], k) && (before.state == Unset || ReadyCondition(s).truth != ReadyCondition(before).truth)
      then Some(i)
      else LastFlip(h, i - 1, k)
  }

  /** The time of a flip: what the clock said when that reconcile read it for its report. */
  predicate FlippedAt(h: seq<Entry>, i: nat, k: Key, flip: Option<nat>, time: nat)
    requires i < |h|
  {
    flip.Some? ==>
      && flip.value <= i && Reports(h[flip.value], k) && h[flip.value].who.step.now == time
      && ClockRead(h, flip.value, k, time)
  }

  /** A status either is untouched, or has one Ready entry that agrees with its state and reason. */
  predicate Consistent(s: Status, flip: nat) {
    if s.state == Unset then s == EMPTY_STATUS
    else
      && (s.state == Failing <==> s.reason != NoReason)
      && s.conditions ==
         [match s.state
          case InSync => Condition(Ready, True, Synced, s.observedGeneration, flip)
          case Failing => Condition(Ready, False, Because(s.reason), s.observedGeneration, flip)
          case _ => Condition(Ready, Unknown, NotYet, s.observedGeneration, flip)]
  }

  function Others(cs: seq<Condition>): seq<Condition> {
    if cs == [] then []
    else if cs[0].conditionType == Ready then Others(cs[1..])
    else [cs[0]] + Others(cs[1..])
  }

  /** Conditions of any other type are carried over as they were, in their order. */
  lemma {:induction false} OtherConditionsStay(cs: seq<Condition>, s: Status, now: nat)
    ensures Others(SetCondition(cs, ReadyCondition(s), now)) == Others(cs)
  {
    if cs != [] {
      var r := SetCondition(cs, ReadyCondition(s), now);
      if cs[0].conditionType == Ready {
        assert r[1..] == cs[1..];
      } else {
        OtherConditionsStay(cs[1..], s, now);
        assert r[1..] == SetCondition(cs[1..], ReadyCondition(s), now);
      }
    }
  }

  lemma SetOnlyCondition(c: Condition, d: Condition, now: nat)
    requires c.conditionType == d.conditionType
    ensures SetCondition([c], d, now) == [d.(since := if c.truth == d.truth then c.since else now)]
  {
  }

  lemma StatusStepConsistent(ss: SecretSync, s: Status, now: nat, flip: nat)
    requires StatusStep(ss, s, now) && Consistent(ss.status, flip)
    ensures Consistent(s, if ss.status.state == Unset
            || ReadyCondition(s).truth != ReadyCondition(ss.status).truth then now else flip)
    ensures ss.status.state in {InSync, Failing} ==> s.state in {InSync, Failing}
    ensures s.state != Unset
  {
    if ss.status.state != Unset {
      SetOnlyCondition(ss.status.conditions[0], ReadyCondition(s), now);
    }
  }

  /**
   Every status the API server ever holds is consistent, and its transition time is what the clock said
   when the reconcile of the last flip read it, just before its report.
   */
  lemma {:induction false} StatusConsistent(h: seq<Entry>, i: nat, k: Key) returns (time: nat)
    requires ValidHistory(h) && FromScratch(h) && i < |h| && k in h[i].now.syncs
    ensures Consistent(h[i].now.syncs[k].obj.status, time)
    ensures h[i].now.syncs[k].obj.status.state != Unset ==> LastFlip(h, i, k).Some?
    ensures FlippedAt(h, i, k, LastFlip(h, i, k), time)
  {
    hide ValidHistory, FromScratch, StatusStep, Consistent, ClockRead;
    StatusOrigin(h, i, k);
    time := 0;
    if Newborn(h, i, k) {
      EmptyConsistent(time);
    } else {
      time := StatusConsistent(h, i - 1, k);
      if Reports(h[i], k) {
        var ss, s := h[i - 1].now.syncs[k].obj, h[i].now.syncs[k].obj.status;
        StatusStepConsistent(ss, s, h[i].who.step.now, time);
        if LastFlip(h, i, k) == Some(i) { time := h[i].who.step.now; }
      }
    }
  }

  lemma EmptyConsistent(flip: nat)
    ensures Consistent(EMPTY_STATUS, flip)
  {
  }

  /** Rank of a state: untouched, then Pending, then the two terminal states. */
  function Rank(s: State): nat {
    match s
    case Unset => 0
    case Pending => 1
    case _ => 2
  }

  predicate LivesThrough(h: seq<Entry>, i: nat, j: nat, k: Key, uid: Uid)
    requires i <= j < |h|
  {
    forall m | i <= m <= j :: SyncIs(h[m].now.syncs, k, uid)
  }

  /** Along the life of one object the state never falls back. */
  lemma {:induction false} StateNeverFallsBack(h: seq<Entry>, i: nat, j: nat, k: Key, uid: Uid)
    requires ValidHistory(h) && FromScratch(h) && i <= j < |h|
    requires LivesThrough(h, i, j, k, uid)
    ensures SyncIs(h[i].now.syncs, k, uid) && SyncIs(h[j].now.syncs, k, uid)
    ensures Rank(h[i].now.syncs[k].obj.status.state) <= Rank(h[j].now.syncs[k].obj.status.state)
  {
    hide ValidHistory, FromScratch;
    if i < j {
      StateNeverFallsBack(h, i, j - 1, k, uid);
      StatusOrigin(h, j, k);
    }
  }

  // ----- InSync is sound -----

  /** The entry at which this very object last reported a status. */
  function LastReport(h: seq<Entry>, i: nat, k: Key): Option<nat>
    requires i < |h|
  {
    if k !in h[i].now.syncs || Newborn(h, i, k) then None
    else if Reports(h[i], k) then Some(i)
    else LastReport(h, i - 1, k)
  }

  /**
   Whenever a SecretSync reads InSync, that is what its last report stored, over the declaration as
   it was on the server just before; and the proof of that report holds: its target held exactly the
   vault's value at that version, by the write it had made after its vault read or in the snapshot
   it had verified, and between the vault read and the report it did nothing else.
   */
  lemma {:induction false} InSyncIsSound(h: seq<Entry>, i: nat, k: Key)
    requires ValidHistory(h) && FromScratch(h) && i < |h|
    requires k in h[i].now.syncs && h[i].now.syncs[k].obj.status.state == InSync
    ensures LastReport(h, i, k).Some?
    ensures var r, s := LastReport(h, i, k).value, h[i].now.syncs[k].obj.status;
            && 0 < r <= i && Reports(h[r], k)
            && SyncIs(h[r - 1].now.syncs, k, h[i].now.syncs[k].obj.uid)
            && k in h[r].now.syncs && h[r].now.syncs[k].obj.status == s
            && h[r].who.step.proof.Some?
            && ProofHolds(h, r, k, h[r - 1].now.syncs[k].obj, s, h[r].who.step.proof.value)
  {
    hide ValidHistory, FromScratch, ProofHolds, StatusStep;
    StatusOrigin(h, i, k);
    assert !Newborn(h, i, k);
    if Reports(h[i], k) {
      LegalAt(h, i);
    } else {
      InSyncIsSound(h, i - 1, k);
    }
  }

  /**
   Successive evidence never goes back: the later report rests on a vault read made after the earlier
   report, had looked at a snapshot no older, and, if by a write, on one made after the earlier
   report; two snapshots follow one another.
   */
  lemma EvidenceMovesOn(h: seq<Entry>, i: nat, j: nat, k: Key)
    requires ValidHistory(h) && 0 < i < j < |h| && Evident(h[i], k) && Evident(h[j], k)
    ensures var p, q := h[i].who.step.proof.value, h[j].who.step.proof.value;
            && p.seen < i <= q.seen < j && p.at < i
            && p.looked <= q.looked
            && (q.at == q.looked || i < q.at)
            && (p.at == p.looked && q.at == q.looked ==> p.at <= q.at)
            && p.stamped <= q.stamped < j && h[p.stamped].now.clock <= h[q.stamped].now.clock
  {
    hide ValidHistory, Exact, Grounded, StatusStep, ClockRead;
    LegalAt(h, i);
    LegalAt(h, j);
    assert OwnEntry(h[i], k);
    ClockMonotone(h, h[i].who.step.proof.value.stamped, h[j].who.step.proof.value.stamped);
  }

  lemma {:induction false} ClockMonotone(h: seq<Entry>, i: nat, j: nat)
    requires ValidHistory(h) && i <= j < |h|
    ensures h[i].now.clock <= h[j].now.clock
  {
    hide ValidHistory;
    if i < j {
      ClockMonotone(h, i, j - 1);
      ClockStep(h, j);
    }
  }

  lemma ClockStep(h: seq<Entry>, i: nat)
    requires ValidHistory(h) && 0 < i < |h|
    ensures h[i - 1].now.clock <= h[i].now.clock
  {
    hide ValidHistory, StatusLegal;
    LegalAt(h, i);
    if h[i].who.Op? { OpEffect(h, i); }
  }
}
