/**
 What repeated reconciles achieve: drift is repaired, a synced target stays quiet, and competing
 claims on one target settle on a single owner.
 */
module Convergence {
  import opened Objects
  import opened History
  import opened Api
  import opened Writer
  import opened Engine
  import opened Arbitration
  import opened Plan

  /**
   Whatever was done to the target, one reconcile of an unblocked SecretSync restores it, unless its
   occupant is frozen with other data, controlled by another owner, or neither labelled nor ours.
   In those cases the occupant is left alone and the SecretSync reports which: TargetImmutable exactly
   when the occupant, though ours to write, is frozen with other data.
   */
  lemma DriftRepair(v: View, k: Key, interval: nat)
    requires Healthy(v, k) && Unblocked(v.syncs, k)
    ensures var e := Reconciled(v, k, interval);
            && (HoldsWanted(v, e.view.secrets, k) <==> Yields(v, k))
            && (Yields(v, k) ==> Achieved(v, k, e))
            && (!Yields(v, k) ==>
                  && TurnedAway(v, k, e)
                  && e.final.value.reason == if FrozenAgainst(v, k) then TargetImmutable else TargetConflict)
  {
    hide Achieved, SyncTarget, ControllerOf, FrozenAgainst;
    var ss := Announced(v.syncs[k], v.clock);
    UnblockedReconcile(v, k, interval);
    if Yields(v, k) {
      SyncYields(v, k, ss, interval);
      AchievedHolds(v, k, Reconciled(v, k, interval));
    } else {
      SyncResists(v, k, ss, interval);
      OnlyAnnounced(v, k, SyncTarget(v, k, ss, interval));
    }
  }

  /** What an occupant that yields is, and one that is only frozen, in terms of its metadata and data. */
  lemma ObstaclesMean(v: View, k: Key)
    requires Healthy(v, k)
    ensures Yields(v, k) <==>
            TargetKey(k, v.syncs[k]) in v.secrets ==>
              var s := v.secrets[TargetKey(k, v.syncs[k])];
              && OursToWrite(s, v.syncs[k].uid) && !SomebodyElses(s, v.syncs[k].uid)
              && (s.immutable == Some(true) ==> s.data == map[Wanted(v, k).dataKey := Wanted(v, k).value])
    ensures FrozenAgainst(v, k) <==>
            && TargetKey(k, v.syncs[k]) in v.secrets
            && var s := v.secrets[TargetKey(k, v.syncs[k])];
               && OursToWrite(s, v.syncs[k].uid) && !SomebodyElses(s, v.syncs[k].uid)
               && s.immutable == Some(true) && s.data != map[Wanted(v, k).dataKey := Wanted(v, k).value]
  {
    if TargetKey(k, v.syncs[k]) in v.secrets {
      WriterTests(v.secrets[TargetKey(k, v.syncs[k])], v.syncs[k].uid, Wanted(v, k).dataKey, Wanted(v, k).value);
    }
    hide Latest, Writable, Foreign, ImmutableBlocks, OursToWrite, SomebodyElses;
  }

  lemma AchievedHolds(v: View, k: Key, e: Effect)
    requires Healthy(v, k) && Achieved(v, k, e)
    ensures HoldsWanted(v, e.view.secrets, k)
  {
  }

  lemma OnlyAnnounced(v: View, k: Key, e: Effect)
    requires TurnedAway(v, k, e)
    ensures e.view.secrets == v.secrets
  {
  }

  /** Only a healthy, unblocked claim on a yielding target ends InSync. */
  lemma InSyncCause(v: View, k: Key, interval: nat)
    requires Reconciled(v, k, interval).final.Some? && Reconciled(v, k, interval).final.value.state == InSync
    ensures Healthy(v, k) && Unblocked(v.syncs, k) && Yields(v, k)
  {
    hide Yields, WithReady, Latest, ControllerOf, StaleKeys, DataMatches, Verdict, DirectWrite, TurnedAway;
    var ss := Announced(v.syncs[k], v.clock);
    BlockedIgnoresStatus(v.syncs, k, v.syncs[k], ss);
    WithReadyKeeps(ss.status, Failed(ss, TargetConflict), v.clock);
    assert !Blocked(v.syncs, k, ss);
    VerdictNeedsVault(v, k, ss, interval);
    if !Yields(v, k) {
      SyncResists(v, k, ss, interval);
      TurnedAwayFails(v, k, SyncTarget(v, k, ss, interval));
    }
  }

  lemma TurnedAwayFails(v: View, k: Key, e: Effect)
    requires TurnedAway(v, k, e)
    ensures e.final.Some? && e.final.value.state == Failing
  {
  }

  lemma VerdictNeedsVault(v: View, k: Key, ss: SecretSync, interval: nat)
    requires SyncTarget(v, k, ss, interval).final.Some?
    requires SyncTarget(v, k, ss, interval).final.value.state == InSync
    ensures Latest(v.vault, ss.source).Some?
  {
    hide Conclude, WithReady, Taken, DirectWrite, UpToDate, Managed;
    if Latest(v.vault, ss.source).None? {
      var verdict := Verdict(ss, VisibleBare(v.secrets, TargetKey(k, ss)), ReadFailed(NotFound), v.clock);
      ConcludeState(v, k, ss, verdict, interval, false);
    }
  }

  lemma ConcludeState(v: View, k: Key, ss: SecretSync, s: Status, interval: nat, touched: bool)
    ensures Conclude(v, k, ss, s, interval, touched).final.Some?
    ensures Conclude(v, k, ss, s, interval, touched).final.value.state == s.state
  {
  }

  /** After a reconcile that ends InSync the only labelled Secret it owns is its target, and the next one is quiet. */
  lemma Quiescence(v: View, k: Key, interval: nat, later: nat)
    requires Reconciled(v, k, interval).final.Some? && Reconciled(v, k, interval).final.value.state == InSync
    ensures k in v.syncs
    ensures var e := Reconciled(v, k, interval);
            && (forall s | s in e.view.secrets && s.ns == k.ns && Labelled(e.view.secrets[s])
                           && ControlledBy(e.view.secrets[s], v.syncs[k].uid) :: s == TargetKey(k, v.syncs[k]))
            && var again := Reconciled(e.view.(clock := later), k, interval);
               && !again.touched
               && again.view.secrets == e.view.secrets
               && again.final.Some? && again.final.value.state == InSync
               && again.final.value.syncedVersion == e.final.value.syncedVersion
  {
    InSyncCause(v, k, interval);
    var ss := Announced(v.syncs[k], v.clock);
    UnblockedReconcile(v, k, interval);
    SyncYields(v, k, ss, interval);
    var e := Reconciled(v, k, interval);
    assert Achieved(v, k, e);
    hide Reconciled, SyncTarget;
    OwnsOnlyTarget(v, k, e);
    StaysQuiet(v, k, e, interval, later);
  }

  lemma OwnsOnlyTarget(v: View, k: Key, e: Effect)
    requires Healthy(v, k) && Achieved(v, k, e)
    ensures forall s | s in e.view.secrets && s.ns == k.ns && Labelled(e.view.secrets[s])
                       && ControlledBy(e.view.secrets[s], v.syncs[k].uid) :: s == TargetKey(k, v.syncs[k])
  {
    var target := TargetKey(k, v.syncs[k]);
    forall s | s in e.view.secrets && s.ns == k.ns && Labelled(e.view.secrets[s])
               && ControlledBy(e.view.secrets[s], v.syncs[k].uid)
      ensures s == target
    {
      assert s !in StaleKeys(e.view.secrets, k, v.syncs[k].uid, target.name);
    }
  }

  lemma StaysQuiet(v: View, k: Key, e: Effect, interval: nat, later: nat)
    requires Healthy(v, k) && Unblocked(v.syncs, k) && Achieved(v, k, e)
    ensures var again := Reconciled(e.view.(clock := later), k, interval);
            && !again.touched
            && again.view.secrets == e.view.secrets
            && again.final.Some? && again.final.value.state == InSync
            && again.final.value.syncedVersion == e.final.value.syncedVersion
  {
    var u := e.view.(clock := later);
    var ss := u.syncs[k];
    var target := TargetKey(k, ss);
    var x := Latest(u.vault, ss.source).value;
    assert Announced(ss, later) == ss;
    BlockedIgnoresStatus(v.syncs, k, v.syncs[k], ss);
    BlockedIgnoresSelf(v.syncs, k, ss, ss);
    DataMatchesExactly(u.secrets[target], DataKey(ss), x.value);
    assert UpToDate(ss, VisibleBare(u.secrets, target), x);
    hide Blocked, Achieved, Exact, WithReady, UpToDate;
    assert ss.(finalizer := true) == ss;
    assert u.secrets - {} == u.secrets;
    ConcludeState(u, k, ss, Succeeded(ss, x.version, later), interval, false);
  }

  // ----- Competing claims -----

  function Holder(v: View, target: Key): Option<Uid> {
    if target in v.secrets then ControllerOf(v.secrets[target].owners) else None
  }

  /** The undeleted claimants of one target with a working vault, and a target that one of them may take. */
  predicate Contest(v: View, target: Key, group: set<Key>) {
    && group == Claimants(v.syncs, target) && group != {}
    && (forall k | k in group :: Healthy(v, k))
    && (forall k, m | k in v.syncs && m in v.syncs && v.syncs[k].uid == v.syncs[m].uid :: k == m)
    && (target in v.secrets ==> Labelled(v.secrets[target]) && !Frozen(v.secrets[target]))
    && (Holder(v, target).Some? ==> exists k | k in group :: v.syncs[k].uid == Holder(v, target).value)
  }

  /** `k` is turned away from the target. */
  predicate Loses(v: View, target: Key, k: Key)
    requires k in v.syncs
  {
    Blocked(v.syncs, k, v.syncs[k]) || Holder(v, target) !in {None, Some(v.syncs[k].uid)}
  }

  /** The declarations in `b` are declarations of `a`, and those of `group` are all there. */
  predicate SameClaims(a: Claims, b: Claims, group: set<Key>) {
    && group <= b.Keys
    && forall m | m in b ::
         && m in a
         && b[m].(status := a[m].status, finalizer := a[m].finalizer) == a[m]
  }

  lemma ClaimantsKept(a: Claims, b: Claims, target: Key, group: set<Key>)
    requires group == Claimants(a, target) && SameClaims(a, b, group)
    ensures Claimants(b, target) == group
  {
  }

  lemma HealthKept(v: View, u: View, k: Key, group: set<Key>)
    requires Healthy(v, k) && k in group && SameClaims(v.syncs, u.syncs, group) && u.vault == v.vault
    ensures Healthy(u, k)
  {
    hide Latest;
  }

  lemma UidsKept(a: Claims, b: Claims, group: set<Key>)
    requires SameClaims(a, b, group)
    ensures group <= b.Keys && forall m | m in b :: m in a && b[m].uid == a[m].uid
  {
  }

  lemma ContestKept(v: View, u: View, target: Key, group: set<Key>)
    requires Contest(v, target, group) && SameClaims(v.syncs, u.syncs, group) && u.vault == v.vault
    requires target in u.secrets ==> Labelled(u.secrets[target]) && !Frozen(u.secrets[target])
    requires Holder(u, target) == Holder(v, target)
             || exists k | k in group :: Holder(u, target) == Some(v.syncs[k].uid)
    ensures Contest(u, target, group)
  {
    hide Latest, ControllerOf, Labelled, Frozen, Holder, SameClaims, Claimants, Healthy;
    ClaimantsKept(v.syncs, u.syncs, target, group);
    forall k | k in group ensures Healthy(u, k) { HealthKept(v, u, k, group); }
    UidsKept(v.syncs, u.syncs, group);
    if Holder(u, target).Some? {
      var w :| w in group && v.syncs[w].uid == Holder(u, target).value;
      assert u.syncs[w].uid == Holder(u, target).value;
    }
  }

  /** One reconcile of a claimant: it is defeated, or it takes or keeps the target. */
  lemma MemberStep(v: View, target: Key, group: set<Key>, k: Key, interval: nat)
    requires Contest(v, target, group) && k in group
    ensures var u := Reconciled(v, k, interval).view;
            && Contest(u, target, group)
            && OnlyReported(v.syncs, u.syncs, k)
            && if Loses(v, target, k)
               then Defeated(u.syncs[k].status) && Holder(u, target) == Holder(v, target)
               else u.syncs[k].status.state == InSync && Holder(u, target) == Some(v.syncs[k].uid)
  {
    hide Reconciled, Blocked, ControllerOf, Contest, Holder, Latest;
    var u := Reconciled(v, k, interval).view;
    assert Healthy(v, k) by { ContestHealthy(v, target, group, k); }
    if Blocked(v.syncs, k, v.syncs[k]) {
      BlockedStep(v, k, interval);
      SameSecretsSameHolder(v, u, target, group);
    } else {
      MemberSync(v, target, group, k, interval);
    }
    ContestGroup(v, target, group);
    assert SameClaims(v.syncs, u.syncs, group);
    assert Holder(u, target) == Holder(v, target) || Holder(u, target) == Some(v.syncs[k].uid);
    ContestKept(v, u, target, group);
  }

  lemma ContestHealthy(v: View, target: Key, group: set<Key>, k: Key)
    requires Contest(v, target, group) && k in group
    ensures Healthy(v, k)
  {
    hide Latest;
  }

  lemma SameSecretsSameHolder(v: View, u: View, target: Key, group: set<Key>)
    requires Contest(v, target, group) && u.secrets == v.secrets
    ensures Holder(u, target) == Holder(v, target)
    ensures target in u.secrets ==> Labelled(u.secrets[target]) && !Frozen(u.secrets[target])
  {
    hide Latest, ControllerOf;
  }

  lemma BlockedStep(v: View, k: Key, interval: nat)
    requires Healthy(v, k) && Blocked(v.syncs, k, v.syncs[k])
    ensures var u := Reconciled(v, k, interval).view;
            && OnlyReported(v.syncs, u.syncs, k)
            && u == v.(syncs := u.syncs)
            && Defeated(u.syncs[k].status)
  {
    hide Blocked, WithReady, Latest, SyncTarget;
    var ss := Announced(v.syncs[k], v.clock);
    BlockedIgnoresStatus(v.syncs, k, v.syncs[k], ss);
    WithReadyKeeps(ss.status, Failed(ss, TargetConflict), v.clock);
    var e := Reconciled(v, k, interval);
    assert e == Conclude(v, k, ss, Failed(ss, TargetConflict), interval, false);
    assert v.secrets - {} == v.secrets;
    assert e.view.syncs == v.syncs[k := e.view.syncs[k]];
  }

  lemma MemberSync(v: View, target: Key, group: set<Key>, k: Key, interval: nat)
    requires Contest(v, target, group) && k in group && Unblocked(v.syncs, k)
    ensures var u := Reconciled(v, k, interval).view;
            && OnlyReported(v.syncs, u.syncs, k) && u.vault == v.vault
            && (target in u.secrets ==> Labelled(u.secrets[target]) && !Frozen(u.secrets[target]))
            && if Holder(v, target) in {None, Some(v.syncs[k].uid)}
               then u.syncs[k].status.state == InSync && Holder(u, target) == Some(v.syncs[k].uid)
               else Defeated(u.syncs[k].status) && Holder(u, target) == Holder(v, target)
  {
    hide SyncTarget, Reconciled, ControllerOf, Blocked;
    var ss := Announced(v.syncs[k], v.clock);
    UnblockedReconcile(v, k, interval);
    if Yields(v, k) {
      SyncYields(v, k, ss, interval);
    } else {
      SyncResists(v, k, ss, interval);
    }
  }

  /** Keys whose object survives `e` unchanged but for reports on `k`, or goes with `k` itself. */
  predicate Elsewhere(v: View, u: View, k: Key) {
    && u.vault == v.vault && u.clock == v.clock
    && (|| OnlyReported(v.syncs, u.syncs, k)
        || (k in v.syncs && v.syncs[k].deleting && u.syncs == Departed(v.syncs, k))
        || u.syncs == v.syncs)
    && (forall s | s in u.secrets && (k in v.syncs ==> s != TargetKey(k, v.syncs[k])) ::
          s in v.secrets && u.secrets[s] == v.secrets[s])
    && (forall s | s in v.secrets && (k in v.syncs ==>
                       s != TargetKey(k, v.syncs[k]) && !ControlledBy(v.secrets[s], v.syncs[k].uid)) ::
          s in u.secrets)
  }

  lemma ConcludeElsewhere(v: View, k: Key, ss: SecretSync, secrets: map<Key, Secret>, s: Status, interval: nat,
                          touched: bool)
    requires k in v.syncs
    requires ss.(status := v.syncs[k].status, finalizer := v.syncs[k].finalizer) == v.syncs[k]
    requires secrets == v.secrets ||
             (TargetKey(k, ss) in secrets && secrets == v.secrets[TargetKey(k, ss) := secrets[TargetKey(k, ss)]])
    ensures Elsewhere(v, Conclude(v.(secrets := secrets), k, ss, s, interval, touched).view, k)
  {
    hide ControllerOf, WithReady;
    var u := Conclude(v.(secrets := secrets), k, ss, s, interval, touched).view;
    assert u.syncs == v.syncs[k := u.syncs[k]];
  }

  lemma DepartedElsewhere(v: View, k: Key, interval: nat)
    requires k !in v.syncs || v.syncs[k].deleting
    ensures Elsewhere(v, Reconciled(v, k, interval).view, k)
  {
    hide ControllerOf;
  }

  /** A reconcile reaches no further than its own target and Secrets its SecretSync controls. */
  lemma Footprint(v: View, k: Key, interval: nat)
    ensures Elsewhere(v, Reconciled(v, k, interval).view, k)
  {
    hide Elsewhere, Conclude, Blocked, Verdict, UpToDate, DirectWrite, WithReady, ControllerOf, Rewrite, Latest;
    if k in v.syncs && !v.syncs[k].deleting {
      var ss := Announced(v.syncs[k], v.clock);
      var guarded := ss.(finalizer := true);
      assert v.(secrets := v.secrets) == v;
      var read := ReadLatest(v, ss);
      var verdict := Verdict(ss, VisibleBare(v.secrets, TargetKey(k, ss)), read, v.clock);
      ConcludeElsewhere(v, k, ss, v.secrets, Failed(ss, TargetConflict), interval, false);
      ConcludeElsewhere(v, k, ss, v.secrets, verdict, interval, false);
      ConcludeElsewhere(v, k, guarded, v.secrets, verdict, interval, false);
      ConcludeElsewhere(v, k, guarded, v.secrets, Failed(ss, TargetConflict), interval, false);
      ConcludeElsewhere(v, k, guarded, v.secrets, Failed(ss, TargetImmutable), interval, false);
      if read.ReadOk? {
        var prior := if TargetKey(k, ss) in v.secrets then v.secrets[TargetKey(k, ss)] else BLANK;
        var want := IntentOf(ss, read.version.value, read.version.version);
        ConcludeElsewhere(v, k, guarded, v.secrets[TargetKey(k, ss) := Rewrite(prior, want)], verdict, interval, true);
      }
    } else {
      DepartedElsewhere(v, k, interval);
    }
  }

  /** A reconcile of anything that does not claim the target leaves the contest as it is. */
  lemma BystanderStep(v: View, target: Key, group: set<Key>, k: Key, interval: nat)
    requires Contest(v, target, group) && k !in group
    ensures var u := Reconciled(v, k, interval).view;
            && Contest(u, target, group)
            && Holder(u, target) == Holder(v, target)
            && forall m | m in group :: m in u.syncs && m in v.syncs && u.syncs[m] == v.syncs[m]
  {
    Footprint(v, k, interval);
    var u := Reconciled(v, k, interval).view;
    hide Reconciled, ControllerOf, Latest, Healthy;
    BystanderControlsNothing(v, target, group, k);
    assert target in v.secrets ==> target in u.secrets && u.secrets[target] == v.secrets[target];
    assert target in u.secrets ==> target in v.secrets;
    BystanderSyncs(v, u, target, group, k);
    HolderReadsTarget(v, u, target);
  }

  lemma BystanderControlsNothing(v: View, target: Key, group: set<Key>, k: Key)
    requires Contest(v, target, group) && k !in group
    ensures k in v.syncs ==> TargetKey(k, v.syncs[k]) != target
    ensures k in v.syncs && target in v.secrets ==> !ControlledBy(v.secrets[target], v.syncs[k].uid)
  {
    hide ControllerOf, Healthy, Latest;
    if k in v.syncs && target in v.secrets && Holder(v, target).Some? {
      var w :| w in group && v.syncs[w].uid == Holder(v, target).value;
      assert w != k;
    }
  }

  /** What a bystander may do to the SecretSyncs, by report or by leaving, does not concern the contest. */
  lemma BystanderSyncs(v: View, u: View, target: Key, group: set<Key>, k: Key)
    requires Contest(v, target, group) && k !in group
    requires Elsewhere(v, u, k)
    requires (target in v.secrets <==> target in u.secrets) && (target in v.secrets ==>
             u.secrets[target] == v.secrets[target])
    ensures Contest(u, target, group)
    ensures forall m | m in group :: m in u.syncs && m in v.syncs && u.syncs[m] == v.syncs[m]
  {
    hide ControllerOf, Latest, Labelled, Frozen, Healthy, Holder, Contest, Claimants, TargetKey;
    ContestGroup(v, target, group);
    assert SameClaims(v.syncs, u.syncs, group);
    hide SameClaims;
    HolderReadsTarget(v, u, target);
    ContestKept(v, u, target, group);
  }

  lemma ContestGroup(v: View, target: Key, group: set<Key>)
    requires Contest(v, target, group)
    ensures group <= v.syncs.Keys
    ensures target in v.secrets ==> Labelled(v.secrets[target]) && !Frozen(v.secrets[target])
  {
    hide ControllerOf, Latest, Labelled, Frozen, Holder;
  }

  lemma HolderReadsTarget(v: View, u: View, target: Key)
    requires target in v.secrets <==> target in u.secrets
    requires target in v.secrets ==> u.secrets[target] == v.secrets[target]
    ensures Holder(u, target) == Holder(v, target)
  {
  }

  // ----- Whole runs -----

  /** A reconcile of `k` at time `at`. */
  datatype Turn = Turn(k: Key, at: nat)

  function Take(v: View, t: Turn, interval: nat): View {
    Reconciled(v.(clock := t.at), t.k, interval).view
  }

  /** Atomic reconciles one after the other, each with fresh caches. */
  function Play(v: View, turns: seq<Turn>, interval: nat): View {
    if turns == [] then v
    else Take(Play(v, turns[..|turns| - 1], interval), turns[|turns| - 1], interval)
  }

  function Turned(turns: seq<Turn>): set<Key> {
    set t | t in turns :: t.k
  }

  /** Every claimant gets its turn. */
  predicate Round(turns: seq<Turn>, group: set<Key>) {
    group <= Turned(turns)
  }

  /**
   Everybody but the holder of the target who has had a turn is defeated; while nobody holds it, somebody is
   still to come.
   */
  predicate Opening(v: View, target: Key, group: set<Key>, done: set<Key>) {
    && Contest(v, target, group)
    && (forall k | k in group && k in done && Holder(v, target) != Some(v.syncs[k].uid) :: Defeated(v.syncs[k].status))
    && (Holder(v, target).None? ==> !(group <= done))
  }

  /** `w` holds the target and everybody else is defeated. */
  predicate Settled(v: View, target: Key, group: set<Key>, w: Key) {
    && Contest(v, target, group)
    && w in group && Holder(v, target) == Some(v.syncs[w].uid)
    && forall k | k in group && k != w :: Defeated(v.syncs[k].status)
  }

  predicate Decided(v: View, target: Key, group: set<Key>, w: Key) {
    && Settled(v, target, group, w)
    && v.syncs[w].status.state == InSync
  }

  lemma ClockIsNoClaim(v: View, target: Key, group: set<Key>, at: nat)
    requires Contest(v, target, group)
    ensures Contest(v.(clock := at), target, group)
  {
    var u := v.(clock := at);
    assert forall k | k in group :: Healthy(v, k) ==> Healthy(u, k);
    assert Holder(u, target) == Holder(v, target);
  }

  /** A claim that blocks a claimant of the target is another live claimant of it. */
  lemma BlockerIsLive(v: View, target: Key, group: set<Key>, k: Key) returns (o: Key)
    requires Contest(v, target, group) && k in group && Blocked(v.syncs, k, v.syncs[k])
    ensures o in group && o != k && !Defeated(v.syncs[o].status)
  {
    hide Healthy, Holder;
    o :| o in v.syncs && Rival(v.syncs, k, v.syncs[k], o);
  }

  lemma OpeningTurn(v: View, target: Key, group: set<Key>, done: set<Key>, t: Turn, interval: nat)
    requires Opening(v, target, group, done)
    ensures Opening(Take(v, t, interval), target, group, done + {t.k})
  {
    hide Reconciled, Contest, Holder, Blocked, Defeated;
    ClockIsNoClaim(v, target, group, t.at);
    var c := v.(clock := t.at);
    var u := Take(v, t, interval);
    HolderReadsTarget(v, c, target);
    if t.k in group {
      MemberStep(c, target, group, t.k, interval);
      if Holder(u, target).None? {
        var o := BlockerIsLive(c, target, group, t.k);
        assert o !in done;
      }
    } else {
      BystanderStep(c, target, group, t.k, interval);
    }
  }

  lemma {:induction false} OpeningRun(v: View, target: Key, group: set<Key>, turns: seq<Turn>, interval: nat)
    requires Contest(v, target, group)
    ensures Opening(Play(v, turns, interval), target, group, Turned(turns))
  {
    hide Contest, Opening;
    if turns == [] {
      assert Turned(turns) == {};
      OpeningStart(v, target, group);
    } else {
      var before, t := turns[..|turns| - 1], turns[|turns| - 1];
      OpeningRun(v, target, group, before, interval);
      OpeningTurn(Play(v, before, interval), target, group, Turned(before), t, interval);
      assert turns == before + [t];
      assert Turned(turns) == Turned(before) + {t.k};
    }
  }

  lemma OpeningStart(v: View, target: Key, group: set<Key>)
    requires Contest(v, target, group)
    ensures Opening(v, target, group, {})
  {
    hide Healthy, Holder;
  }

  /** One full round settles who holds the target. */
  lemma RoundSettles(v: View, target: Key, group: set<Key>, turns: seq<Turn>, interval: nat) returns (w: Key)
    requires Contest(v, target, group) && Round(turns, group)
    ensures Settled(Play(v, turns, interval), target, group, w)
  {
    OpeningRun(v, target, group, turns, interval);
    var u := Play(v, turns, interval);
    hide Play, Healthy;
    assert Holder(u, target).Some?;
    w :| w in group && u.syncs[w].uid == Holder(u, target).value;
  }

  lemma SettledTurn(v: View, target: Key, group: set<Key>, w: Key, t: Turn, interval: nat)
    requires Settled(v, target, group, w)
    ensures Settled(Take(v, t, interval), target, group, w)
    ensures t.k == w || v.syncs[w].status.state == InSync ==> Decided(Take(v, t, interval), target, group, w)
  {
    hide Reconciled, Contest, Holder, Blocked, Defeated;
    ClockIsNoClaim(v, target, group, t.at);
    var c := v.(clock := t.at);
    var u := Take(v, t, interval);
    HolderReadsTarget(v, c, target);
    if t.k in group {
      MemberStep(c, target, group, t.k, interval);
      if t.k == w {
        if Blocked(c.syncs, w, c.syncs[w]) {
          var o := BlockerIsLive(c, target, group, w);
          assert false;
        }
      } else {
        DistinctUids(c, target, group, t.k, w);
      }
    } else {
      BystanderStep(c, target, group, t.k, interval);
    }
  }

  lemma DistinctUids(v: View, target: Key, group: set<Key>, k: Key, m: Key)
    requires Contest(v, target, group) && k in group && m in group && k != m
    ensures k in v.syncs && m in v.syncs && v.syncs[k].uid != v.syncs[m].uid
  {
    hide Healthy, Holder;
  }

  lemma {:induction false} SettledRun(v: View, target: Key, group: set<Key>, w: Key, turns: seq<Turn>, interval: nat)
    requires Settled(v, target, group, w)
    ensures Settled(Play(v, turns, interval), target, group, w)
    ensures w in Turned(turns) || v.syncs[w].status.state == InSync ==>
            Decided(Play(v, turns, interval), target, group, w)
  {
    hide Settled;
    if turns != [] {
      var before, t := turns[..|turns| - 1], turns[|turns| - 1];
      SettledRun(v, target, group, w, before, interval);
      var u := Play(v, before, interval);
      SettledMember(v, target, group, w);
      SettledMember(u, target, group, w);
      SettledTurn(u, target, group, w, t, interval);
      assert turns == before + [t];
      assert Turned(turns) == Turned(before) + {t.k};
    } else {
      SettledMember(v, target, group, w);
    }
  }

  lemma SettledMember(v: View, target: Key, group: set<Key>, w: Key)
    requires Settled(v, target, group, w)
    ensures w in v.syncs
  {
    hide Healthy, Holder;
  }

  /**
   From any statuses, two rounds in which every claimant gets a turn, in any order and among any
   other SecretSyncs, leave one claimant InSync, holding the target, and all others Failing with
   TargetConflict; and every further run leaves it so.
   */
  lemma ClaimsConverge(v: View, target: Key, group: set<Key>, first: seq<Turn>, second: seq<Turn>, interval: nat)
    returns (w: Key)
    requires Contest(v, target, group)
    requires Round(first, group) && Round(second, group)
    ensures Decided(Play(Play(v, first, interval), second, interval), target, group, w)
    ensures forall more :: Decided(Play(Play(Play(v, first, interval), second, interval), more, interval), target,
            group, w)
  {
    w := RoundSettles(v, target, group, first, interval);
    var u := Play(v, first, interval);
    SettledRun(u, target, group, w, second, interval);
    var x := Play(u, second, interval);
    assert Decided(x, target, group, w) by {
      hide Play;
      assert w in Turned(second);
    }
    forall more ensures Decided(Play(x, more, interval), target, group, w) {
      SettledRun(x, target, group, w, more, interval);
    }
  }

  /** One round is not enough: the holder can be the last to have been blocked by a claim that is itself refused. */
  lemma OneRoundIsNotEnough(target: Key, a: Key, b: Key, v: View, interval: nat)
    requires a == Key(target.ns, "a") && b == Key(target.ns, "b")
    requires v.syncs.Keys == {a, b} && Contest(v, target, {a, b})
    requires v.syncs[a].created == v.syncs[b].created
    requires v.syncs[a].status.state == Pending
    requires Holder(v, target) == Some(v.syncs[b].uid)
    ensures Round([Turn(b, v.clock), Turn(a, v.clock)], {a, b})
    ensures var u := Play(v, [Turn(b, v.clock), Turn(a, v.clock)], interval);
            && b in u.syncs && Defeated(u.syncs[b].status)
            && a in u.syncs && Defeated(u.syncs[a].status)
  {
    hide Reconciled, Play, Contest, Holder, Healthy;
    var t0, t1 := Turn(b, v.clock), Turn(a, v.clock);
    assert Turned([t0, t1]) == {a, b} by { assert t0 in [t0, t1] && t1 in [t0, t1]; }
    PlayTwo(v, t0, t1, interval);
    assert v.(clock := v.clock) == v;
    assert Rival(v.syncs, b, v.syncs[b], a) by { RivalByName(v, target, a, b); }
    MemberStep(v, target, {a, b}, b, interval);
    var u := Take(v, t0, interval);
    DistinctUids(v, target, {a, b}, a, b);
    ClockIsNoClaim(u, target, {a, b}, v.clock);
    HolderReadsTarget(u, u.(clock := v.clock), target);
    hide Blocked;
    MemberStep(u.(clock := v.clock), target, {a, b}, a, interval);
  }

  // Two claims on "t": "b" holds it, "a" precedes it by name.
  const CLAIM := SecretSync(1, 0, 1, false, true, {}, VaultRef("v", "s"), "t", "", EMPTY_STATUS.(state := Pending))
  const HELD := BLANK.(labels := map[ManagedBy := Kvsynk8s], owners := [OwnerRef(2, true)])
  const TWO_CLAIMS := View(
    map[Key("n", "t") := HELD],
    map[Key("n", "a") := CLAIM, Key("n", "b") := CLAIM.(uid := 2)],
    map[VaultRef("v", "s") := [VaultVersion("x", "1")]], 0)

  /** A cluster in which one round of the two claimants ends with both defeated. */
  lemma BothDefeated(interval: nat)
    ensures var a, b := Key("n", "a"), Key("n", "b");
            var u := Play(TWO_CLAIMS, [Turn(b, 0), Turn(a, 0)], interval);
            && Contest(TWO_CLAIMS, Key("n", "t"), {a, b})
            && Round([Turn(b, 0), Turn(a, 0)], {a, b})
            && a in u.syncs && Defeated(u.syncs[a].status)
            && b in u.syncs && Defeated(u.syncs[b].status)
  {
    hide Reconciled, Play, Blocked, Defeated;
    var a, b, t := Key("n", "a"), Key("n", "b"), Key("n", "t");
    var v := TWO_CLAIMS;
    assert Fold("v") == "v" && Fold("s") == "s";
    assert Claimants(v.syncs, t) == {a, b};
    assert Holder(v, t) == Some(2) && v.syncs[b].uid == 2;
    assert Contest(v, t, {a, b});
    OneRoundIsNotEnough(t, a, b, v, interval);
  }

  lemma RivalByName(v: View, target: Key, a: Key, b: Key)
    requires a == Key(target.ns, "a") && b == Key(target.ns, "b")
    requires Contest(v, target, {a, b})
    requires a in v.syncs && b in v.syncs
    requires v.syncs[a].created == v.syncs[b].created
    requires v.syncs[a].status.state == Pending
    ensures Rival(v.syncs, b, v.syncs[b], a)
  {
    hide Holder, Healthy;
    assert a in Claimants(v.syncs, target) && b in Claimants(v.syncs, target);
  }

  lemma PlayTwo(v: View, t0: Turn, t1: Turn, interval: nat)
    ensures Play(v, [t0, t1], interval) == Take(Take(v, t0, interval), t1, interval)
  {
    hide Take;
    assert [t0, t1][..1] == [t0] && [t0][..0] == [];
    assert Play(v, [t0], interval) == Take(Play(v, [], interval), t0, interval);
  }
}
