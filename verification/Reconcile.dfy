/**
 The controller's reconcile loop body as it runs: one worker among others, over caches that lag
 behind, with anything lawful happening between its calls.
 */
module Reconcile {
  import opened Objects
  import opened History
  import opened Api
  import opened Writer
  import opened Engine
  import opened Arbitration
  import opened Plan
  import opened Evidence

  // Seconds: four hours.
  const DEFAULT_INTERVAL := 14400

  class Reconciler {
    const server: Server
    // Whether a vault reader is configured.
    const reader: bool
    const interval: nat

    constructor (server: Server, reader: bool, interval: nat)
      ensures this.server == server && this.reader == reader && this.interval == interval
    {
      this.server, this.reader, this.interval := server, reader, interval;
    }

    function ReconcileInterval(): (r: nat)
      ensures r > 0
      ensures interval > 0 ==> r == interval
      ensures interval == 0 ==> r == 4 * 60 * 60
    {
      if interval > 0 then interval else DEFAULT_INTERVAL
    }

    method DeleteOne(k: Key, uid: Uid, s: Key, seen: nat) returns (ok: bool)
      requires Inv(server.w) && seen < |server.w.h| && s in server.w.h[seen].now.secrets
      requires Labelled(server.w.h[seen].now.secrets[s].obj) && ControlledBy(server.w.h[seen].now.secrets[s].obj, uid)
      modifies server`w, server`failed
      ensures Inv(server.w) && server.w.h != [] && Onward(old(server.w), server.w)
      ensures server.failed == old(server.failed) + if ok then 0 else 1
      ensures DeletesOnly(k, s, old(server.w), server.w)
      ensures ok ==> s !in Now(server.w).secrets
      ensures server.quiet ==>
                && ok && old(server.w).h != []
                && Now(server.w) == Without(Now(old(server.w)), {s})
    {
      hide Inv, ValidHistory, Later, Acts, ControllerOf, Labelled;
      InvValid(server.w);
      var reply := server.Delete(k, uid, s, seen);
      InvValid(server.w);
      if reply.Done? {
        ActsOnward(k, old(server.w), server.w, Op(k, uid, DeleteSecret(s, seen)));
        DeleteDeletesOnly(k, uid, s, seen, old(server.w), server.w);
      } else {
        LaterUntouched(k, old(server.w), server.w);
        LaterDeletesOnly(k, s, old(server.w), server.w);
      }
      assert server.quiet && reply.Gone? ==> Without(Now(old(server.w)), {s}) == Now(old(server.w)) by {
        assert server.quiet && reply.Gone? ==> Now(old(server.w)).secrets - {s} == Now(old(server.w)).secrets;
      }
      ok := !reply.Refused?;
    }

    /** Deletes what this SecretSync wrote under other target names. */
    method DeleteStaleManagedSecrets(k: Key, uid: Uid, current: string) returns (ok: bool)
      requires Inv(server.w)
      modifies server`w, server`failed
      ensures Inv(server.w) && Onward(old(server.w), server.w)
      ensures server.failed == old(server.failed) + if ok then 0 else 1
      ensures OnlySwept(k, current, old(server.w), server.w)
      ensures ok ==> Cleaned(k, uid, current, old(server.w), server.w)
      ensures server.quiet ==>
                var w := old(server.w);
                var stale := StaleKeys(Bare(w.h[w.secretAt].now.secrets), k, uid, current);
                && ok
                && Now(server.w) == Without(Now(w), stale)
                && (stale == {} ==> server.w == w)
    {
      hide Inv, ValidHistory, Later, Acts, ControllerOf, Labelled, ControlledBy, Shown, StaleKeys, Bare, Onward,
           OnlySwept,
           DeletesOnly, SweptSoFar, Sweeping, Without, Cleaned;
      InvValid(server.w);
      ghost var w0 := server.w;
      var list := server.ListSecrets(k);
      ghost var listed := server.w;
      LaterUntouched(k, w0, listed);
      LaterSweepsNone(k, current, w0, listed);
      InvValid(listed);
      if list.Unreadable? {
        return false;
      }
      var items := list.item;
      var seen := server.w.secretAt;
      SweepListed(listed.h[seen].now.secrets, k, uid, current);
      var rest := set s | s in items && s.ns == k.ns;
      ghost var done: set<Key> := {};
      ghost var stale := StaleKeys(Bare(listed.h[seen].now.secrets), k, uid, current);
      ok := true;
      SweepStarts(server.quiet, k, current, listed, stale);
      while rest != {} && ok
        invariant Inv(server.w)
        invariant server.failed == old(server.failed) + if ok then 0 else 1
        invariant server.quiet ==> ok
        invariant ok ==> Sweeping(items, k, uid, current, stale, done, rest)
        invariant SweptSoFar(server.quiet, k, current, listed, server.w, done, stale, ok)
        decreases rest
      {
        var s :| s in rest;
        SweepItem(items, k, uid, current, stale, done, rest, s);
        rest := rest - {s};
        if s.name == current {
          continue;
        }
        if !ControlledBy(items[s].obj, uid) {
          continue;
        }
        ghost var before := server.w;
        SweptOnward(server.quiet, k, current, listed, before, done, stale);
        ListedOnRecord(listed, before, s);
        ok := DeleteOne(k, uid, s, seen);
        SweepGoesOn(server.quiet, k, current, listed, before, server.w, done, stale, s, ok);
        done := done + {s};
      }
      if ok { SweepComplete(items, k, uid, current, stale, done); }
      SweepEnds(server.quiet, k, uid, current, w0, listed, server.w, done, stale, ok);
    }

    /** Sees to it that the target holds no Secret of this owner. */
    method ReleaseTarget(k: Key, ss: SecretSync) returns (ok: bool, ghost owned: bool)
      requires Inv(server.w)
      modifies server`w, server`gets, server`failed, server`calls
      ensures Inv(server.w) && server.w.h != [] && Onward(old(server.w), server.w)
      ensures server.failed == old(server.failed) + if ok then 0 else 1
      ensures server.calls == old(server.calls)
      ensures DeletesOnly(k, TargetKey(k, ss), old(server.w), server.w)
      ensures ok ==> Released(server.w.h, old(server.w).secretAt, TargetKey(k, ss), ss.uid)
      ensures !owned ==> Untouched(k, old(server.w), server.w)
      ensures server.quiet && CacheCurrent(old(server.w)) ==>
                var target := TargetKey(k, ss);
                var existing := VisibleBare(Bare(Now(old(server.w)).secrets), target);
                && ok
                && (owned <==> existing.Some? && ControlledBy(existing.value, ss.uid))
                && Now(server.w) == (if owned then Without(Now(old(server.w)), {target}) else Now(old(server.w)))
    {
      hide Inv, ValidHistory, Later, Acts, ControllerOf, Labelled, Bare, Onward, Untouched, DeletesOnly, Released;
      ghost var w0 := server.w;
      InvValid(w0);
      var target := TargetKey(k, ss);
      owned := false;
      var got := server.GetSecret(k, target, false);
      LaterUntouched(k, w0, server.w);
      LaterDeletesOnly(k, target, w0, server.w);
      InvValid(server.w);
      ghost var w1 := server.w;
      ok := !got.Unreadable?;
      if !ok {
        return;
      }
      VisibleAgrees(w1.h[w1.secretAt].now.secrets, target);
      OnwardCache(w0, w1);
      if got.Found? && ControlledBy(got.item.obj, ss.uid) {
        owned := true;
        ok := DeleteOne(k, ss.uid, target, server.w.secretAt);
        OnwardTransitive(w0, w1, server.w);
        DeletesOnlyTransitive(k, target, w0, w1, server.w);
        OnwardCache(w1, server.w);
        InvValid(server.w);
        if ok { ReleasedAt(server.w, w0.secretAt, |server.w.h| - 1, target, ss.uid); }
      } else {
        ReleasedAt(w1, w0.secretAt, w1.secretAt, target, ss.uid);
      }
    }

    /** A SecretSync marked for deletion: its Secret goes first, then the finalizer. */
    method ReconcileDelete(k: Key, ss: Stored<SecretSync>) returns (ok: bool)
      requires Inv(server.w)
      requires k in server.w.h[server.w.syncAt].now.syncs && server.w.h[server.w.syncAt].now.syncs[k] == ss
               && ss.obj.deleting
      modifies server`w, server`gets, server`failed, server`calls
      ensures Inv(server.w) && server.w.h != [] && Onward(old(server.w), server.w)
      ensures server.failed == old(server.failed) + if ok then 0 else 1
      ensures server.calls == old(server.calls)
      ensures DeletesAtMost(k, TargetKey(k, ss.obj), old(server.w), server.w)
      ensures !ok || !ss.obj.finalizer ==> NotLetGo(k, old(server.w), server.w)
      ensures ok && ss.obj.finalizer ==>
                LetGoLast(k, ss.obj.uid, TargetKey(k, ss.obj), old(server.w), server.w)
      ensures server.quiet && Fresh(old(server.w)) ==>
                && ok
                && ViewOf(Now(server.w)) == Deleted(ViewOf(Now(old(server.w))), k, ss.obj).view
                && (!Deleted(ViewOf(Now(old(server.w))), k, ss.obj).touched ==> Untouched(k, old(server.w), server.w))
    {
      hide Inv, ValidHistory, Later, Acts, ControllerOf, Labelled, Bare, Onward, Untouched, WithoutFinalizer, Departed,
           NotLetGo, Released, LetGoLast, DeletesOnly, DeletesAtMost;
      ghost var w0 := server.w;
      InvValid(w0);
      OnwardReflexive(w0);
      LaterReflexive(k, w0);
      LaterDeletesOnly(k, TargetKey(k, ss.obj), w0, w0);
      DeletesOnlyMeans(k, TargetKey(k, ss.obj), w0, w0);
      BareAt(Now(w0).syncs, k);
      if !ss.obj.finalizer {
        UntouchedReflexive(k, w0);
        return true;
      }
      var seen := server.w.syncAt;
      ghost var owned;
      ok, owned := ReleaseTarget(k, ss.obj);
      DeletesOnlyMeans(k, TargetKey(k, ss.obj), w0, server.w);
      if !ok {
        return;
      }
      ghost var w2 := server.w;
      InvValid(w2);
      OnwardKeeps(w0, w2, seen);
      OnwardSync(w0, w2);
      var reply := server.RemoveFinalizer(k, ss, seen);
      InvValid(server.w);
      if reply.Done? {
        ActsOnward(k, w2, server.w, Op(k, ss.obj.uid, RemoveFinalizer));
        LetsGo(k, ss.obj.uid, TargetKey(k, ss.obj), w0, w2, server.w);
      } else {
        LaterUntouched(k, w2, server.w);
        LaterNotLetGo(k, w2, server.w);
        NotLetGoTransitive(k, w0, w2, server.w);
      }
      OnwardTransitive(w0, w2, server.w);
      AndThenActs(k, TargetKey(k, ss.obj), w0, w2, server.w, Op(k, ss.obj.uid, RemoveFinalizer));
      ok := reply.Done?;
      if server.quiet && Fresh(w0) {
        WithoutMore(Now(w0), {}, TargetKey(k, ss.obj));
        BareDeparted(Now(w2).syncs, k, |w2.h|);
        BareCut(Now(w0).secrets, {TargetKey(k, ss.obj)});
        if !owned { UntouchedTransitive(k, w0, w2, server.w); }
      }
    }

    /** The terminal status write, the sweep after a success, and what the workqueue is told. */
    method Conclude(k: Key, ss: Stored<SecretSync>, s: Status, proof: Option<Proof>) returns (r: Result, final: Status)
      requires Inv(server.w) && HoldsSync(server.w, k, ss)
      requires Reportable(ss.obj, s)
      requires if s.state == InSync then proof.Some? && ProofHolds(server.w.h, |server.w.h|, k, ss.obj, s, proof.value)
               else proof.None?
      requires proof.Some? ==> proof.value.looked <= server.w.secretAt
      modifies server`w, server`failed
      ensures Inv(server.w) && server.w.h != []
      ensures server.failed >= old(server.failed)
      ensures r == Result(true, 0) || r == Result(false, if interval > 0 then interval else 4 * 60 * 60)
      ensures final.(conditions := []) == s
      ensures Answered(k, ss.obj.uid, TargetName(k, ss.obj), old(server.w), server.w, r, Some(final), proof,
                       server.failed == old(server.failed))
      ensures server.quiet && Prepared(old(server.w), k, ss) ==>
                Matches(old(server.w), server.w, k, r, Some(final),
                        Plan.Conclude(ViewOf(Now(old(server.w))), k, ss.obj, s, ReconcileInterval(), false))
    {
      hide Inv, ValidHistory, Later, Acts, Onward, Untouched, HoldsSync, ProofHolds, StatusStep, WithReady, StaleKeys,
           Swept, OnlySwept, ReportsInSync, NoDeletes, Persisted, Bare, Commit, Without, ViewOf, Shown,
           ClockRead, Cleaned;
      ghost var w0 := server.w;
      InvValid(w0);
      var now := server.Clock(k);
      ghost var w1 := server.w;
      InvValid(w1);
      LaterUntouched(k, w0, w1);
      LaterGrows(k, w0, w1);
      HoldsSyncLater(w0, w1, k, ss);
      final := WithReady(ss.obj.status, s, now);
      ReadyStep(ss.obj, s, now);
      if s.state == InSync { ProofLater(k, w0, w1, ss.obj, s, final, proof.value); }
      var reply, next := server.PutStatus(k, ss, final, now, proof);
      ghost var w2 := server.w;
      InvValid(w2);
      if !reply.Done? {
        LaterUntouched(k, w1, w2);
        UntouchedTransitive(k, w0, w1, w2);
        UntouchedOnward(k, w0, w2);
        UntouchedDeletesNone(k, w0, w2);
        NothingSwept(k, TargetName(k, ss.obj), w0, w2);
        r := Result(true, 0);
        return;
      }
      ActsOnward(k, w1, w2, Op(k, ss.obj.uid, PutStatus(now, proof)));
      StoredNow(k, w1, w2, ss.obj.uid, final, now, proof);
      UntouchedTransitive(k, w0, w1, w2);
      UntouchedOnward(k, w0, w2);
      UntouchedOnward(k, w0, w1);
      PersistedEarlier(k, w0, w1, w2, final, proof);
      UntouchedDeletesNone(k, w0, w2);
      NothingSwept(k, TargetName(k, ss.obj), w0, w2);
      r := ResultFor(s, ReconcileInterval());
      if s.state == InSync {
        var swept := DeleteStaleManagedSecrets(k, ss.obj.uid, TargetName(k, ss.obj));
        OnwardTransitive(w0, w2, server.w);
        Lengthens(w0, w1, w2);
        SweepFollows(k, TargetName(k, ss.obj), w0, w2, server.w);
        PersistedStill(k, w0, w2, server.w, final, proof);
        if swept { CleanedEarlier(k, ss.obj.uid, TargetName(k, ss.obj), w0, w2, server.w); }
        if !swept {
          r := Result(true, 0);
        }
      }
      if server.quiet && Prepared(w0, k, ss) {
        OnwardReflexive(w2);
        InvValid(server.w);
        Concluded(w0, w2, server.w, k, ss, s, now, next, ReconcileInterval(), Op(k, ss.obj.uid, PutStatus(now, proof)));
      }
    }

    /** The finalizer, before anything is written. */
    method EnsureFinalizer(k: Key, ss: Stored<SecretSync>) returns (ok: bool, cur: Stored<SecretSync>)
      requires Inv(server.w) && HoldsSync(server.w, k, ss) && !ss.obj.deleting
      requires ss.obj.finalizer ==> server.w.h != [] && Guarded(Now(server.w), k, ss.obj.uid)
      modifies server`w, server`failed
      ensures Inv(server.w) && server.w.h != [] && Untouched(k, old(server.w), server.w)
      ensures server.failed == old(server.failed) + if ok then 0 else 1
      ensures OnlyGuards(k, old(server.w), server.w)
      ensures ok ==>
                && cur.obj == ss.obj.(finalizer := true)
                && HoldsSync(server.w, k, cur)
                && Guarded(Now(server.w), k, ss.obj.uid)
      ensures server.quiet && (old(server.w).h != [] && k in Now(old(server.w)).syncs
              && Now(old(server.w)).syncs[k] == ss) ==>
                && ok
                && Now(server.w) == Now(old(server.w)).(syncs := Now(old(server.w)).syncs[k := cur])
                && server.w.secretAt == old(server.w).secretAt
    {
      hide Inv, ValidHistory, Later, Acts, Onward, Untouched, HoldsSync, Commit, OnlyGuards;
      ghost var w0 := server.w;
      InvValid(w0);
      UntouchedReflexive(k, w0);
      LaterReflexive(k, w0);
      LaterGuards(k, w0, w0);
      ok, cur := true, ss;
      if !ss.obj.finalizer {
        var reply;
        reply, cur := server.AddFinalizer(k, ss);
        InvValid(server.w);
        ok := reply.Done?;
        if ok {
          ActsOnward(k, w0, server.w, Op(k, ss.obj.uid, AddFinalizer));
          FinalizerGuards(k, ss.obj.uid, w0, server.w);
          if server.quiet && k in Now(w0).syncs && Now(w0).syncs[k] == ss {
            CommitNow(w0, Op(k, ss.obj.uid, AddFinalizer), Now(w0).(syncs := Now(w0).syncs[k := cur]));
          }
        } else {
          LaterUntouched(k, w0, server.w);
          LaterGuards(k, w0, server.w);
        }
      } else {
        assert ss.obj.(finalizer := true) == ss.obj;
        assert server.quiet && k in Now(w0).syncs && Now(w0).syncs[k] == ss ==> Now(w0).syncs[k := ss] == Now(w0).syncs;
      }
    }

    /** The write behind the gate: its outcome and, when it was accepted, the proof of it. */
    method WriteTarget(k: Key, cur: Stored<SecretSync>, want: Intent, seen: nat) 
      returns (o: Outcome, ghost cs: seq<Call>)
      requires Inv(server.w) && MayWrite(server.w, k, cur.obj.uid, WriteSecret(TargetKey(k, cur.obj), want, cur.rv,
               seen))
      requires HoldsSync(server.w, k, cur)
      modifies server`w, server`gets, server`creates, server`updates, server`failed, server`calls
      ensures Inv(server.w) && server.w.h != [] && Onward(old(server.w), server.w) && HoldsSync(server.w, k, cur)
      ensures server.failed == old(server.failed)
      ensures NoDeletes(k, old(server.w), server.w)
      ensures server.calls == old(server.calls) + cs && WriteScript(want, cs, o)
      ensures OnRecord(server.w.h, old(server.w).secretAt, TargetKey(k, cur.obj), cs)
      ensures !o.Nil? ==> Untouched(k, old(server.w), server.w)
      ensures o.Nil? ==>
                && Acts(k, old(server.w), server.w, Op(k, cur.obj.uid, WriteSecret(TargetKey(k, cur.obj), want,
                    cur.rv, seen)))
                && TargetKey(k, cur.obj) in Now(server.w).secrets
                && Exact(Now(server.w).secrets[TargetKey(k, cur.obj)].obj, want)
      ensures server.quiet && server.uncached && CacheCurrent(old(server.w)) ==>
                var w := old(server.w);
                var target := TargetKey(k, cur.obj);
                && o == DirectWrite(Bare(Now(w).secrets), target, want)
                && (o.Nil? ==> server.w == Rewritten(w, k, cur.obj.uid, WriteSecret(target, want, cur.rv, seen)))
                && (!o.Nil? ==> server.w == w)
    {
      hide Inv, ValidHistory, Later, Acts, Onward, Untouched, HoldsSync, MayWrite, Exact, Rewritten, NoDeletes,
           WriteScript, OnRecord,
           CachedWrite,
           DirectWrite, Visible, Bare;
      ghost var w0 := server.w;
      InvValid(w0);
      var writer := new SecretWriter(server);
      var t := WriteSecret(TargetKey(k, cur.obj), want, cur.rv, seen);
      o, cs := writer.CreateOrUpdate(k, cur.obj.uid, t);
      InvValid(server.w);
      if o.Nil? {
        ActsOnward(k, w0, server.w, Op(k, cur.obj.uid, t));
        WriteIsExact(server.w, k, cur.obj.uid, t);
        WriteDeletesNone(k, w0, server.w, Op(k, cur.obj.uid, t));
      } else {
        LaterUntouched(k, w0, server.w);
        UntouchedDeletesNone(k, w0, server.w);
      }
      OnwardGrows(w0, server.w);
      HoldsSyncLater(w0, server.w, k, cur);
      if CacheCurrent(w0) {
        CurrentCacheWrite(Now(w0).secrets, t.target, want);
      }
    }

    /** A write that failed for a reason worth retrying: reported if possible, and handed back for backoff. */
    method ReportWriteFailure(k: Key, cur: Stored<SecretSync>) returns (final: Status)
      requires Inv(server.w) && HoldsSync(server.w, k, cur)
      modifies server`w, server`failed
      ensures Inv(server.w) && server.w.h != [] && Untouched(k, old(server.w), server.w)
      ensures server.failed >= old(server.failed)
      ensures final.(conditions := []) == Failed(cur.obj, SecretWriteFailed)
      ensures server.failed == old(server.failed) ==> Persisted(k, old(server.w), server.w, final, None)
    {
      hide Inv, ValidHistory, Later, Acts, Onward, Untouched, HoldsSync, StatusStep, WithReady, Commit, Persisted,
           ClockRead;
      ghost var w0 := server.w;
      InvValid(w0);
      var now := server.Clock(k);
      ghost var w1 := server.w;
      InvValid(w1);
      LaterGrows(k, w0, w1);
      LaterUntouched(k, w0, w1);
      HoldsSyncLater(w0, w1, k, cur);
      final := WithReady(cur.obj.status, Failed(cur.obj, SecretWriteFailed), now);
      ReadyStep(cur.obj, Failed(cur.obj, SecretWriteFailed), now);
      var reply, _ := server.PutStatus(k, cur, final, now, None);
      InvValid(server.w);
      if reply.Done? {
        ActsOnward(k, w1, server.w, Op(k, cur.obj.uid, PutStatus(now, None)));
        StoredNow(k, w1, server.w, cur.obj.uid, final, now, None);
        PersistedEarlier(k, w0, w1, server.w, final, None);
      } else {
        LaterUntouched(k, w1, server.w);
      }
      UntouchedTransitive(k, w0, w1, server.w);
    }

    /**
     Reads the target, photographs it, lets the engine work on it, and evaluates the write gate. The
     gate is open exactly when the engine did not skip, and the value for the writer is the vault's.
     */
    method Observe(k: Key, ss: SecretSync)
      returns (ok: bool, status: Status, gate: bool, value: string, seen: nat, cachedAt: nat, stamped: nat,
               ghost existing: Option<Secret>, ghost read: VaultRead)
      requires Inv(server.w)
      modifies server`w, server`gets, server`failed, server`answers, server`calls
      ensures Inv(server.w) && server.w.h != [] && Later(k, old(server.w), server.w)
      ensures ok ==> reader
      ensures server.failed >= old(server.failed) && server.calls == old(server.calls)
      ensures reader && server.failed == old(server.failed) ==> ok
      ensures ok ==> status == Verdict(ss, existing, read, if status.lastSync.Some? then status.lastSync.value else 0)
      ensures ok ==> server.answers == old(server.answers) + if Taken(ss, existing) then [] else [read]
      ensures old(server.w).secretAt <= cachedAt <= server.w.secretAt && server.w.secretAt < |server.w.h|
      ensures existing == VisibleBare(Bare(server.w.h[cachedAt].now.secrets), TargetKey(k, ss))
      ensures ok && status.state != Failing ==>
                && read.ReadOk? && LooksOn(server.w.h, |server.w.h|, k, cachedAt)
                && seen <= stamped < |server.w.h| && status.lastSync == Some(server.w.h[stamped].now.clock)
                && (gate <==> !UpToDate(ss, existing, read.version))
                && value == read.version.value && status.syncedVersion == read.version.version
                && seen < |server.w.h| && |old(server.w).h| <= seen + 1
                && Latest(server.w.h[seen].now.vault, ss.source) == Some(read.version)
      ensures server.quiet ==>
                && server.w == old(server.w) && ok == reader
                && cachedAt == old(server.w).secretAt
                && (ok ==> status == Verdict(ss, existing, ReadLatest(ViewOf(Now(old(server.w))), ss),
                    Now(old(server.w)).clock))
    {
      hide Inv, ValidHistory, Later, Latest, Built, UpToDate, Verdict, Taken, ControllerOf, DataKey, GateOpen, Bare,
           LooksOn;
      ghost var w0 := server.w;
      InvValid(w0);
      gate, value := false, "";
      ok, status, seen, cachedAt, stamped := false, EMPTY_STATUS, 0, 0, 0;
      existing, read := None, ReadFailed(NotFound);
      var target := TargetKey(k, ss);
      var got := server.GetSecret(k, target, false);
      ghost var w1 := server.w;
      InvValid(w1);
      cachedAt := server.w.secretAt;
      LooksOnNow(w1, k);
      existing := VisibleBare(Bare(w1.h[cachedAt].now.secrets), target);
      VisibleAgrees(w1.h[cachedAt].now.secrets, target);
      if got.Unreadable? {
        return;
      }
      var fetched: SecretObject? := null;
      if got.Found? {
        fetched := new SecretObject.Decode(got.item);
      }
      assert Held(fetched) == existing;
      var prior := Photograph(fetched, ss.uid);
      var engine := new SyncEngine(server, reader);
      var desired;
      ok, status, desired, read, seen, stamped := engine.Sync(k, ss, fetched);
      InvValid(server.w);
      LaterGrows(k, w0, w1);
      LaterGrows(k, w1, server.w);
      LaterTransitive(k, w0, w1, server.w);
      LooksOnLater(k, w1, server.w, cachedAt, cachedAt);
      if ok && status.state != Failing {
        SucceededRead(ss, existing, read, if status.lastSync.Some? then status.lastSync.value else 0);
        BuiltData(if existing.None? then BLANK else existing.value, IntentOf(ss, read.version.value,
            read.version.version));
        gate := GateOpen(fetched != null, prior, status.syncedVersion, desired.data);
        GateMatchesSkip(ss, existing, read.version, prior, desired.data);
        value := desired.data[DataKey(ss)];
      }
    }

    /**
     Guards and, behind the gate, writes. `ok` is false when the finalizer could not be ensured; `cs` are
     the calls of the write.
     */
    method Secure(k: Key, ss: Stored<SecretSync>, status: Status, gate: bool, value: string, seen: nat, cachedAt: nat,
                  stamped: nat, ghost existing: Option<Secret>, ghost read: VaultRead)
      returns (ok: bool, cur: Stored<SecretSync>, attempt: Option<Outcome>, evidence: Proof,
               ghost cs: seq<Call>)
      requires Inv(server.w) && HoldsSync(server.w, k, ss) && !ss.obj.deleting
      requires ss.obj.finalizer ==> server.w.h != [] && Guarded(Now(server.w), k, ss.obj.uid)
      requires Observed(server.w, k, ss.obj, status, gate, value, seen, cachedAt, stamped, existing, read)
      modifies server`w, server`gets, server`creates, server`updates, server`failed, server`calls
      ensures Inv(server.w) && server.w.h != [] && Onward(old(server.w), server.w)
      ensures server.failed == old(server.failed) + if ok then 0 else 1
      ensures NoDeletes(k, old(server.w), server.w)
      ensures attempt != Some(Nil) ==> Untouched(k, old(server.w), server.w)
      ensures !ok ==> attempt.None?
      ensures ok ==> (attempt.Some? <==> gate)
      ensures server.calls == old(server.calls) + cs
      ensures attempt.Some? ==>
                && WriteScript(IntentOf(cur.obj, value, status.syncedVersion), cs, attempt.value)
                && OnRecord(server.w.h, old(server.w).secretAt, TargetKey(k, cur.obj), cs)
      ensures ok ==>
                && HoldsSync(server.w, k, cur) && cur.obj == ss.obj.(finalizer := true)
                && (attempt.None? || attempt.value.Nil? ==>
                      && ProofHolds(server.w.h, |server.w.h|, k, cur.obj, status, evidence)
                      && evidence.seen == seen && evidence.looked == cachedAt)
      ensures server.quiet && server.uncached && Ideal(old(server.w), k, ss, status, cachedAt, existing, read) ==>
                ok && Secured(old(server.w), server.w, k, ss, cur, existing, read, attempt)
    {
      hide Inv, ValidHistory, Later, Acts, Onward, Untouched, HoldsSync, MayWrite, Exact, ProofHolds, Bare, Latest,
           UpToDate, Guarded, VisibleBare, IntentOf, Ideal, CacheCurrent, DirectWrite, Rewritten, OnlyTargetDiffers,
           Rewrite, Observed, OnlyGuards, NoDeletes, WriteScript, OnRecord, LooksOn;
      ghost var w2 := server.w;
      InvValid(w2);
      UntouchedReflexive(k, w2);
      ObservedFacts(w2, k, ss.obj, status, gate, value, seen, cachedAt, stamped, existing, read);
      attempt, evidence := None, Proof(0, IntentOf(ss.obj, value, status.syncedVersion), 0, 0, 0);
      cs := [];
      ghost var ideal := server.quiet && server.uncached && Ideal(w2, k, ss, status, cachedAt, existing, read);
      if ideal { IdealStart(w2, k, ss, status, cachedAt, existing, read); }
      ok, cur := EnsureFinalizer(k, ss);
      ghost var w3 := server.w;
      InvValid(w3);
      UntouchedOnward(k, w2, w3);
      UntouchedDeletesNone(k, w2, w3);
      if !ok {
        return;
      }
      var want := IntentOf(cur.obj, value, status.syncedVersion);
      if ideal { CacheStillCurrent(w2, w3, k, cur); }
      if gate {
        Committed(w2, w3, k, ss, cur, read.version, seen);
        var o;
        o, cs := WriteTarget(k, cur, want, seen);
        InvValid(server.w);
        OnwardCache(w2, w3);
        OnRecordEarlier(server.w.h, w2.secretAt, w3.secretAt, TargetKey(k, cur.obj), cs);
        OnwardTransitive(w2, w3, server.w);
        NoDeletesTransitive(k, w2, w3, server.w);
        attempt := Some(o);
        if ideal { AfterWrite(w2, w3, server.w, k, ss, cur, want, seen, o); }
        if o.Nil? {
          evidence := Proof(|server.w.h| - 1, want, seen, cachedAt, stamped);
          WriteProof(w2, w3, server.w, k, ss.obj, cur, read.version, seen, status, cachedAt, stamped);
        } else {
          UntouchedTransitive(k, w2, w3, server.w);
        }
      } else {
        evidence := Proof(cachedAt, want, seen, cachedAt, stamped);
        SkipProof(w2, w3, k, ss.obj, cur.obj, read.version, seen, cachedAt, existing, status, stamped);
        if ideal { AfterSkip(w2, w3, k, ss, cur); }
      }
    }

    /** Guards, writes, and turns a write that was not accepted into the outcome to report. */
    method Attempt(k: Key, ss: Stored<SecretSync>, status: Status, gate: bool, value: string, seen: nat, cachedAt: nat,
                   stamped: nat, ghost existing: Option<Secret>, ghost read: VaultRead)
      returns (ok: bool, cur: Stored<SecretSync>, outcome: Status, evidence: Option<Proof>,
          ghost attempt: Option<Outcome>)
      requires Inv(server.w) && HoldsSync(server.w, k, ss) && !ss.obj.deleting
      requires ss.obj.finalizer ==> server.w.h != [] && Guarded(Now(server.w), k, ss.obj.uid)
      requires Reportable(ss.obj, status) && status.state == InSync
      requires Observed(server.w, k, ss.obj, status, gate, value, seen, cachedAt, stamped, existing, read)
      modifies server`w, server`gets, server`creates, server`updates, server`failed, server`calls
      ensures Inv(server.w) && server.w.h != [] && Onward(old(server.w), server.w) && old(server.calls) <= server.calls
      ensures server.failed == old(server.failed) + if ok then 0 else 1
      ensures NoDeletes(k, old(server.w), server.w)
      ensures !ok || outcome.state == Failing ==> Untouched(k, old(server.w), server.w)
      ensures ok ==>
                && HoldsSync(server.w, k, cur)
                && cur.obj == ss.obj.(finalizer := true) && Reportable(cur.obj, outcome)
      ensures ok ==> cachedAt <= server.w.secretAt
      ensures ok && outcome.state == InSync ==>
                && outcome == status
                && evidence.Some? && evidence.value.seen == seen && evidence.value.looked == cachedAt
                && ProofHolds(server.w.h, |server.w.h|, k, cur.obj, status, evidence.value)
      ensures ok && outcome.state == Failing ==>
                && evidence.None? && outcome == Failed(cur.obj, outcome.reason)
                && Accounted(k, old(server.w), server.w, ss.obj, outcome.reason, seen, old(server.calls), server.calls)
      ensures server.quiet && server.uncached && Ideal(old(server.w), k, ss, status, cachedAt, existing, read) ==>
                && ok && Secured(old(server.w), server.w, k, ss, cur, existing, read, attempt)
                && outcome == Resulting(cur.obj, status, attempt)
                && (attempt != Some(Nil) ==> Untouched(k, old(server.w), server.w))
    {
      hide Inv, ValidHistory, Onward, Untouched, HoldsSync, ProofHolds, Guarded, Reportable, Ideal, CacheCurrent,
           ViewOf,
           Secured, Observed, NoDeletes, TargetKey, Now, Accounted, WriteScript, OnRecord;
      ghost var w2 := server.w;
      InvValid(w2);
      ObservedFacts(w2, k, ss.obj, status, gate, value, seen, cachedAt, stamped, existing, read);
      var o, p;
      ghost var cs;
      ok, cur, o, p, cs := Secure(k, ss, status, gate, value, seen, cachedAt, stamped, existing, read);
      attempt, outcome, evidence := o, status, None;
      OnwardCache(w2, server.w);
      if !ok {
        return;
      }
      StillReportable(k, ss.obj, cur.obj, status);
      outcome := Resulting(cur.obj, status, o);
      if o.None? || o.value.Nil? {
        evidence := Some(p);
      } else {
        OnwardKeeps(w2, server.w, seen);
        AttemptAccounted(k, w2, server.w, server.w, ss.obj, cur.obj, read.version, seen, cs, o.value, old(server.calls),
                         outcome.reason);
      }
    }

    /** What follows the engine's verdict: guard, write, report. */
    method Fulfil(k: Key, ss: Stored<SecretSync>, status: Status, gate: bool, value: string, seen: nat, cachedAt: nat,
                  stamped: nat, ghost existing: Option<Secret>, ghost read: VaultRead)
      returns (r: Result, final: Option<Status>, ghost proof: Option<Proof>)
      requires Inv(server.w) && HoldsSync(server.w, k, ss) && !ss.obj.deleting
      requires ss.obj.finalizer ==> server.w.h != [] && Guarded(Now(server.w), k, ss.obj.uid)
      requires Reportable(ss.obj, status)
      requires status.state != Failing ==>
                 Observed(server.w, k, ss.obj, status, gate, value, seen, cachedAt, stamped, existing, read)
      modifies server`w, server`gets, server`creates, server`updates, server`failed, server`calls
      ensures Inv(server.w) && server.w.h != []
      ensures r == Result(true, 0) || r == Result(false, if interval > 0 then interval else 4 * 60 * 60)
      ensures server.failed >= old(server.failed)
      ensures final.Some? && final.value.state == Failing ==>
                if status.state == Failing then final.value.reason == status.reason
                else Accounted(k, old(server.w), server.w, ss.obj, final.value.reason, seen, old(server.calls),
                    server.calls)
      ensures final.Some? && final.value.state == InSync ==>
                && status.state != Failing
                && proof.Some? && proof.value.seen == seen && proof.value.looked == cachedAt
                && Justified(old(server.w), server.w, k, ss.obj, final.value, proof.value)
      ensures Answered(k, ss.obj.uid, TargetName(k, ss.obj), old(server.w), server.w, r, final, proof,
                       server.failed == old(server.failed))
      ensures server.quiet && server.uncached && Ideal(old(server.w), k, ss, status, cachedAt, existing, read) ==>
                Matches(old(server.w), server.w, k, r, final,
                        Plan.SyncTarget(ViewOf(Now(old(server.w))), k, ss.obj, ReconcileInterval()))
    {
      hide Inv, ValidHistory, Onward, Untouched, HoldsSync, ProofHolds, Justified, Guarded, Ideal,
           Matches, Prepared, CacheCurrent, Plan.Conclude, Plan.SyncTarget, ViewOf, Secured, Observed, Swept, NoDeletes,
           Answered, Persisted, TargetName, TargetKey, Now, Accounted, Resulting;
      ghost var w2 := server.w;
      InvValid(w2);
      UntouchedReflexive(k, w2);
      UntouchedOnward(k, w2, w2);
      UntouchedDeletesNone(k, w2, w2);
      r, final, proof := Result(true, 0), None, None;
      var cur, outcome, evidence := ss, status, None;
      ghost var attempt: Option<Outcome> := None;
      ghost var ideal := server.quiet && server.uncached && Ideal(w2, k, ss, status, cachedAt, existing, read);
      if ideal { IdealStart(w2, k, ss, status, cachedAt, existing, read); }
      if status.state != Failing {
        var ok;
        ok, cur, outcome, evidence, attempt := Attempt(k, ss, status, gate, value, seen, cachedAt, stamped, existing,
            read);
        ghost var w4 := server.w;
        if ideal { SecuredTerminal(w2, w4, k, ss, cur, status, existing, read, attempt); }
        if !ok {
          NoAnswer(k, ss.obj.uid, TargetName(k, ss.obj), w2, w4, proof);
          return;
        }
        if outcome.reason == SecretWriteFailed {
          ghost var before := server.failed;
          var f := ReportWriteFailure(k, cur);
          final := Some(f);
          UntouchedOnward(k, w4, server.w);
          AccountedStill(k, w2, w4, server.w, ss.obj, SecretWriteFailed, seen, old(server.calls), server.calls);
          WriteFailureAnswered(k, ss.obj.uid, TargetName(k, ss.obj), w2, w4, server.w, cur.obj, f,
              server.failed == before);
          return;
        }
      }
      ghost var w5 := server.w;
      StillReportable(k, ss.obj, cur.obj, status);
      if ideal { StillPrepared(w2, w5, k, ss, cur); }
      ghost var before := server.failed;
      var f;
      r, f := Conclude(k, cur, outcome, evidence);
      final, proof := Some(f), evidence;
      AnsweredOnward(k, ss.obj.uid, TargetName(k, ss.obj), w5, server.w, r, final, proof, server.failed == before);
      AnsweredEarlier(k, ss.obj.uid, TargetName(k, ss.obj), w2, w5, server.w, r, final, proof, server.failed == before,
                      server.failed == old(server.failed));
      if outcome.state == InSync {
        StillSound(w2, w5, server.w, k, ss.obj, cur.obj, outcome, f, evidence.value);
      } else if status.state != Failing {
        AccountedStill(k, w2, w5, server.w, ss.obj, outcome.reason, seen, old(server.calls), server.calls);
      }
      if ideal {
        FulfilPlan(w2, w5, server.w, k, ss, cur, status, outcome, cachedAt, existing, read, attempt, r, f,
            ReconcileInterval());
      }
    }

    /** The target of a claim that nobody blocks. */
    method SyncTarget(k: Key, ss: Stored<SecretSync>)
      returns (r: Result, final: Option<Status>, ghost proof: Option<Proof>)
      requires Inv(server.w) && HoldsSync(server.w, k, ss) && !ss.obj.deleting
      requires ss.obj.finalizer ==> server.w.h != [] && Guarded(Now(server.w), k, ss.obj.uid)
      modifies server
      ensures Inv(server.w) && server.w.h != []
      ensures r == Result(true, 0) || r == Result(false, if interval > 0 then interval else 4 * 60 * 60)
      ensures server.failed >= old(server.failed)
      ensures final.Some? && final.value.state == Failing ==>
                && Explained(k, old(server.w), server.w, ss.obj, final.value.reason, old(server.answers),
                             server.answers)
                && Blamed(k, old(server.w), server.w, ss.obj, final.value.reason, old(server.calls), server.calls)
      ensures final.Some? && final.value.state == InSync ==>
                proof.Some? && Sound(old(server.w), server.w, k, ss.obj, final.value, proof.value)
      ensures Answered(k, ss.obj.uid, TargetName(k, ss.obj), old(server.w), server.w, r, final, proof,
                       reader && server.failed == old(server.failed))
      ensures server.quiet && server.uncached && reader && CacheCurrent(old(server.w))
              && k in Now(old(server.w)).syncs && Now(old(server.w)).syncs[k] == ss ==>
                Matches(old(server.w), server.w, k, r, final,
                        Plan.SyncTarget(ViewOf(Now(old(server.w))), k, ss.obj, ReconcileInterval()))
    {
      hide Inv, ValidHistory, Later, Onward, Untouched, HoldsSync, Justified, Guarded, Reportable, Ideal, Matches,
           CacheCurrent, Plan.SyncTarget, ViewOf, Observed, Verdict, VisibleBare, Bare, Latest, UpToDate, ReadLatest,
           Swept, NoDeletes, Answered, Explained, Taken, Blamed, Accounted, LooksOn;
      ghost var w0 := server.w;
      InvValid(w0);
      var ok, status, gate, value, seen, cachedAt, stamped;
      ghost var existing, read;
      ok, status, gate, value, seen, cachedAt, stamped, existing, read := Observe(k, ss.obj);
      ghost var w2 := server.w;
      InvValid(w2);
      LaterUntouched(k, w0, w2);
      if !ok {
        r, final, proof := Result(true, 0), None, None;
        NoAnswer(k, ss.obj.uid, TargetName(k, ss.obj), w0, w2, proof);
        return;
      }
      LaterGrows(k, w0, w2);
      HoldsSyncLater(w0, w2, k, ss);
      if ss.obj.finalizer { GuardKept(k, ss.obj.uid, w0, w2); }
      VerdictReportable(ss.obj, existing, read, status);
      if status.state != Failing {
        ObservedHolds(w0, w2, k, ss.obj, status, gate, value, seen, cachedAt, stamped, existing, read);
      }
      if server.quiet && CacheCurrent(w0) && k in Now(w0).syncs && Now(w0).syncs[k] == ss {
        ObservedIdeal(w0, k, ss, status, seen, cachedAt, existing, read);
      }
      VerdictExplained(k, w0, w2, ss.obj, cachedAt, existing, read, status, old(server.answers), server.answers);
      ghost var before := server.failed;
      r, final, proof := Fulfil(k, ss, status, gate, value, seen, cachedAt, stamped, existing, read);
      AnsweredAfter(k, ss.obj.uid, TargetName(k, ss.obj), w0, w2, server.w, r, final, proof, server.failed == before,
                    reader && server.failed == old(server.failed));
      if final.Some? {
        if final.value.state == Failing {
          OnwardGrows(w2, server.w);
          if status.state == Failing {
            OnwardReflexive(w0);
            ExplainedLonger(k, w0, w0, w2, server.w, ss.obj, status.reason, old(server.answers), server.answers);
            VerdictBlamed(k, w0, w2, server.w, ss.obj, cachedAt, existing, read, status, old(server.calls),
                server.calls);
          } else {
            AccountedBlamed(k, w0, w2, server.w, ss.obj, final.value.reason, seen, old(server.calls), server.calls);
            AccountedExplained(k, w2, server.w, w0, server.w, ss.obj, final.value.reason, seen, old(server.calls),
                               server.calls, old(server.answers), server.answers);
          }
        }
        if final.value.state == InSync {
          JustifiedEarlier(w0, w2, server.w, k, ss.obj, final.value, proof.value);
        }
      }
    }

    /** The very first status a SecretSync reports. */
    method Announce(k: Key, ss: Stored<SecretSync>) returns (ok: bool, cur: Stored<SecretSync>)
      requires Inv(server.w) && HoldsSync(server.w, k, ss) && !ss.obj.deleting
      requires ss.obj.finalizer ==> server.w.h != [] && Guarded(Now(server.w), k, ss.obj.uid)
      modifies server`w, server`failed
      ensures Inv(server.w) && server.w.h != [] && Untouched(k, old(server.w), server.w)
      ensures server.failed == old(server.failed) + if ok then 0 else 1
      ensures ok ==>
                && HoldsSync(server.w, k, cur)
                && cur.obj.status.state == (if ss.obj.status.state == Unset then Pending else ss.obj.status.state)
                && cur.obj.(status := ss.obj.status) == ss.obj
                && (cur.obj.finalizer ==> Guarded(Now(server.w), k, cur.obj.uid))
      ensures server.quiet && (old(server.w).h != [] && k in Now(old(server.w)).syncs
              && Now(old(server.w)).syncs[k] == ss) ==>
                && ok
                && cur.obj == Announced(ss.obj, Now(old(server.w)).clock)
                && Now(server.w) == Now(old(server.w)).(syncs := Now(old(server.w)).syncs[k := cur])
                && server.w.secretAt == old(server.w).secretAt && server.w.syncAt == old(server.w).syncAt
    {
      hide Inv, ValidHistory, Later, Acts, Onward, Untouched, HoldsSync, Guarded, StatusStep, WithReady, Commit,
           ClockRead;
      ghost var w0 := server.w;
      InvValid(w0);
      UntouchedReflexive(k, w0);
      ok, cur := true, ss;
      if ss.obj.status.state == Unset {
        var now := server.Clock(k);
        ghost var w1 := server.w;
        InvValid(w1);
        LaterGrows(k, w0, w1);
        LaterUntouched(k, w0, w1);
        HoldsSyncLater(w0, w1, k, ss);
        var s := WithReady(ss.obj.status, ss.obj.status.(state := Pending), now);
        PendingStep(ss.obj, now);
        var reply;
        reply, cur := server.PutStatus(k, ss, s, now, None);
        InvValid(server.w);
        ok := reply.Done?;
        if ok {
          ActsOnward(k, w1, server.w, Op(k, ss.obj.uid, PutStatus(now, None)));
          if ss.obj.finalizer {
            GuardKept(k, ss.obj.uid, w0, w1);
            GuardActs(k, ss.obj.uid, w1, server.w, Op(k, ss.obj.uid, PutStatus(now, None)));
          }
          if server.quiet && k in Now(w0).syncs && Now(w0).syncs[k] == ss {
            CommitNow(w0, Op(k, ss.obj.uid, PutStatus(now, None)), Now(w0).(syncs := Now(w0).syncs[k := cur]));
          }
        } else {
          LaterUntouched(k, w1, server.w);
        }
        UntouchedTransitive(k, w0, w1, server.w);
      } else {
        assert ss.obj.(status := ss.obj.status) == ss.obj;
        assert server.quiet && k in Now(w0).syncs && Now(w0).syncs[k] == ss ==> Now(w0).syncs[k := ss] == Now(w0).syncs;
      }
    }

    /** Announces the SecretSync and looks for a stronger claim; `ok` is false when a call failed. */
    method Arbitrate(k: Key, ss: Stored<SecretSync>) returns (ok: bool, cur: Stored<SecretSync>, blocked: bool)
      requires Inv(server.w) && HoldsSync(server.w, k, ss) && !ss.obj.deleting
      requires ss.obj.finalizer ==> server.w.h != [] && Guarded(Now(server.w), k, ss.obj.uid)
      modifies server`w, server`failed
      ensures Inv(server.w) && server.w.h != [] && Untouched(k, old(server.w), server.w)
      ensures server.failed == old(server.failed) + if ok then 0 else 1
      ensures ok ==>
                && HoldsSync(server.w, k, cur)
                && cur.obj.(status := ss.obj.status) == ss.obj
                && cur.obj.status.state == (if ss.obj.status.state == Unset then Pending else ss.obj.status.state)
                && (cur.obj.finalizer ==> Guarded(Now(server.w), k, cur.obj.uid))
                && server.w.syncAt < |server.w.h|
                && (blocked <==> Blocked(Bare(server.w.h[server.w.syncAt].now.syncs), k, cur.obj))
      ensures server.quiet && AllFresh(old(server.w), k, ss) ==>
                && ok
                && cur.obj == Announced(ss.obj, Now(old(server.w)).clock)
                && Now(server.w) == Now(old(server.w)).(syncs := Now(old(server.w)).syncs[k := cur])
                && CacheCurrent(server.w) && Prepared(server.w, k, cur)
                && (blocked <==> Blocked(ViewOf(Now(old(server.w))).syncs, k, cur.obj))
    {
      hide Inv, ValidHistory, Later, Onward, Untouched, HoldsSync, Guarded, CacheCurrent, ViewOf, Prepared, Blocked,
           Bare;
      ghost var w0 := server.w;
      InvValid(w0);
      blocked := false;
      ok, cur := Announce(k, ss);
      ghost var w2 := server.w;
      InvValid(w2);
      if !ok {
        return;
      }
      var found := FindConflictingOwner(server, k, cur.obj);
      InvValid(server.w);
      LaterUntouched(k, w2, server.w);
      UntouchedTransitive(k, w0, w2, server.w);
      LaterGrows(k, w2, server.w);
      HoldsSyncLater(w2, server.w, k, cur);
      if cur.obj.finalizer { GuardKept(k, cur.obj.uid, w2, server.w); }
      ok := found.Some?;
      if ok {
        blocked := found.value;
      }
      if server.quiet && AllFresh(w0, k, ss) { AnnouncedPlan(w0, w2, k, ss, cur, ReconcileInterval()); }
    }

    /**
     A live SecretSync: announce it, arbitrate, and sync the target of the winner. `cur` is the announced
     copy and `listed` the cache position of the list that arbitration went by, once there is one.
     */
    method Claim(k: Key, ss: Stored<SecretSync>)
      returns (r: Result, final: Option<Status>, ghost cur: Stored<SecretSync>, ghost listed: Option<nat>,
               ghost proof: Option<Proof>)
      requires Inv(server.w) && HoldsSync(server.w, k, ss) && !ss.obj.deleting
      requires ss.obj.finalizer ==> server.w.h != [] && Guarded(Now(server.w), k, ss.obj.uid)
      modifies server
      ensures Inv(server.w) && server.w.h != []
      ensures r == Result(true, 0) || r == Result(false, if interval > 0 then interval else 4 * 60 * 60)
      ensures server.failed >= old(server.failed)
      ensures cur.obj.(status := ss.obj.status) == ss.obj && HoldsSync(server.w, k, cur)
      ensures Judged(k, old(server.w), server.w, cur.obj, listed, final, proof, old(server.Heard()), server.Heard())
      ensures Answered(k, ss.obj.uid, TargetName(k, ss.obj), old(server.w), server.w, r, final, proof,
                       reader && server.failed == old(server.failed))
      ensures server.quiet && server.uncached && reader && AllFresh(old(server.w), k, ss) ==>
                Matches(old(server.w), server.w, k, r, final,
                        Reconciled(ViewOf(Now(old(server.w))), k, ReconcileInterval()))
    {
      hide Inv, ValidHistory, Later, Onward, Untouched, HoldsSync, Sound, Guarded, Matches, CacheCurrent,
           Plan.SyncTarget, Plan.Conclude, Reconciled, ViewOf, Prepared, Reportable, Blocked, Bare, Swept, NoDeletes,
           Answered, Explained, Announced, TargetKey, Blamed, Judged, Now,
           TargetName;
      ghost var w0 := server.w;
      InvValid(w0);
      OnwardReflexive(w0);
      r, final, cur, listed, proof := Result(true, 0), None, ss, None, None;
      ghost var ideal := server.quiet && server.uncached && reader && AllFresh(w0, k, ss);
      var ok, shown, blocked := Arbitrate(k, ss);
      ghost var w3 := server.w;
      InvValid(w3);
      if !ok {
        NoAnswer(k, ss.obj.uid, TargetName(k, ss.obj), w0, w3, proof);
        NothingJudged(k, w0, w3, cur.obj, proof, server.Heard());
        UntouchedOnward(k, w0, w3);
        OnwardGrows(w0, w3);
        HoldsSyncLater(w0, w3, k, ss);
        return;
      }
      cur, listed := shown, Some(w3.syncAt);
      ghost var before, heard := server.failed, server.Heard();
      ghost var current := TargetName(k, ss.obj);
      SameTarget(k, ss.obj, cur.obj);
      if blocked {
        var f;
        FailedReportable(cur.obj);
        r, f := Conclude(k, shown, Failed(shown.obj, TargetConflict), None);
        final := Some(f);
        JudgedBlocked(k, w0, w3, server.w, cur.obj, f, heard, r, server.failed == before,
                      reader && server.failed == old(server.failed), current);
      } else {
        r, final, proof := SyncTarget(k, shown);
        JudgedSynced(k, w0, w3, server.w, cur.obj, final, proof, heard, server.Heard(), r, reader
            && server.failed == before,
                     reader && server.failed == old(server.failed), current);
      }
      OnwardGrows(w3, server.w);
      HoldsSyncLater(w3, server.w, k, cur);
      if ideal { ReconcilePlan(w0, w3, server.w, k, ss, cur, blocked, r, final, ReconcileInterval()); }
    }

    /**
     One reconcile. `final` is the outcome it reports, `copy` the announced copy of the live SecretSync it
     acted on, `listed` the cache position of the list that arbitration went by, once there is one.
     */
    method Reconcile(k: Key)
      returns (r: Result, final: Option<Status>, ghost copy: Option<Stored<SecretSync>>, ghost listed: Option<nat>,
               ghost proof: Option<Proof>)
      requires Inv(server.w)
      modifies server
      ensures Inv(server.w) && server.w.h != [] && Onward(old(server.w), server.w)
      ensures server.failed >= old(server.failed)
      // A SecretSync that is not live: nothing to write, and nothing to retry once it has gone.
      ensures copy.None? ==>
                && final.None? && (r.err || Leaving(old(server.w), server.w, k))
                && (server.failed == old(server.failed) ==> !r.err && Leaving(old(server.w), server.w, k))
                && (Leaving(old(server.w), server.w, k) || Untouched(k, old(server.w), server.w))
      ensures copy.Some? ==> r == Result(true, 0) || r == Result(false, if interval > 0 then interval else 4 * 60 * 60)
      // A live one: the answer, what was done to Secrets, and why.
      ensures copy.Some? ==>
                && HoldsSync(server.w, k, copy.value) && !copy.value.obj.deleting
                && Answered(k, copy.value.obj.uid, TargetName(k, copy.value.obj), old(server.w), server.w, r, final,
                    proof,
                            reader && server.failed == old(server.failed))
                && Judged(k, old(server.w), server.w, copy.value.obj, listed, final, proof, old(server.Heard()),
                    server.Heard())
      ensures server.quiet && server.uncached && reader
              && old(server.w).secretAt < |old(server.w).h| && old(server.w).syncAt < |old(server.w).h|
                  && Fresh(old(server.w)) ==>
                Matches(old(server.w), server.w, k, r, final,
                        Reconciled(ViewOf(Now(old(server.w))), k, ReconcileInterval()))
    {
      hide Inv, ValidHistory, Later, Onward, Untouched, HoldsSync, Sound, Guarded, Matches, Fresh, CacheCurrent,
           Leaving, Plan.Deleted, Reconciled, ViewOf, Bare, Swept, NoDeletes, Answered, Judged;
      ghost var w0 := server.w;
      InvValid(w0);
      OnwardReflexive(w0);
      r, final, copy, listed, proof := Result(true, 0), None, None, None, None;
      var got := server.GetSync(k);
      ghost var w1 := server.w;
      InvValid(w1);
      LaterUntouched(k, w0, w1);
      UntouchedOnward(k, w0, w1);
      if got.Unreadable? {
        return;
      }
      ghost var ideal := server.quiet && server.uncached && reader && Fresh(w0);
      if ideal { FreshMeans(w0, k); }
      if got.Missing? {
        LeavingHere(w0, w1, k);
        if ideal { NothingToDo(w0, k, ReconcileInterval()); }
        r := Result(false, 0);
        return;
      }
      var ss := got.item;
      if ss.obj.deleting {
        LeavingHere(w0, w1, k);
        var ok := ReconcileDelete(k, ss);
        LeavingStill(w0, w1, server.w, k);
        OnwardTransitive(w0, w1, server.w);
        if ideal { InView(w0, k); DeletePlan(w0, server.w, k, ss, ReconcileInterval()); }
        r := Result(!ok, 0);
        return;
      }
      HoldsThere(w1, k, w1.syncAt);
      if ss.obj.finalizer { CopyIsGuarded(w1, k); }
      ghost var held;
      ghost var before := server.failed;
      r, final, held, listed, proof := Claim(k, ss);
      copy := Some(held);
      AnsweredAfter(k, held.obj.uid, TargetName(k, held.obj), w0, w1, server.w, r, final, proof, reader
          && server.failed == before,
                    reader && server.failed == old(server.failed));
      JudgedAfter(k, w0, w1, server.w, held.obj, listed, final, proof, old(server.Heard()), server.Heard());
    }
  }
}
