/**
 What a reconcile needs to know between its calls: how far the world has moved, what was observed,
 why an InSync status is justified, and how the steps of a quiet run add up to the plan.
 */
module Evidence {
  import opened Objects
  import opened History
  import opened Api
  import opened Writer
  import opened Engine
  import opened Arbitration
  import opened Plan

  /** The history has only grown and the caches have only moved forward. */
  predicate Onward(a: World, b: World) {
    a.h <= b.h && a.secretAt <= b.secretAt && a.syncAt <= b.syncAt
  }

  /** In between, nothing was done to a Secret on behalf of `k`. */
  predicate Untouched(k: Key, a: World, b: World) {
    && Onward(a, b)
    && forall i | |a.h| <= i < |b.h| && OwnEntry(b.h[i], k) :: !TouchesSecrets(b.h[i])
  }

  lemma UntouchedTransitive(k: Key, a: World, b: World, c: World)
    requires Untouched(k, a, b) && Untouched(k, b, c)
    ensures Untouched(k, a, c)
  {
  }

  lemma OnwardTransitive(a: World, b: World, c: World)
    requires Onward(a, b) && Onward(b, c)
    ensures Onward(a, c)
  {
  }

  lemma OnwardReflexive(a: World)
    ensures Onward(a, a)
  {
  }

  lemma OnwardKeeps(a: World, b: World, i: nat)
    requires Onward(a, b) && i < |a.h|
    ensures i < |b.h| && b.h[i] == a.h[i]
  {
  }

  lemma LaterUntouched(k: Key, a: World, b: World)
    requires Later(k, a, b)
    ensures Untouched(k, a, b) && Onward(a, b)
  {
  }

  lemma ActsOnward(k: Key, a: World, b: World, who: Actor)
    requires Acts(k, a, b, who)
    ensures Onward(a, b) && |a.h| < |b.h| && b.h[|b.h| - 1].who == who
    ensures who.Op? && !who.step.WriteSecret? && !who.step.DeleteSecret? ==> Untouched(k, a, b)
  {
    var c := b.(h := b.h[..|b.h| - 1]);
    forall i | 0 <= i < |a.h| ensures a.h[i] == b.h[i] { assert c.h[i] == b.h[i]; }
    forall i | |a.h| <= i < |b.h| - 1 ensures b.h[i] == c.h[i] {}
  }

  lemma UntouchedOnward(k: Key, a: World, b: World)
    requires Untouched(k, a, b)
    ensures Onward(a, b)
  {
  }

  lemma GuardActs(k: Key, uid: Uid, a: World, b: World, who: Actor)
    requires ValidHistory(b.h) && a.h != [] && Acts(k, a, b, who) && who != Op(k, uid, RemoveFinalizer)
    requires Guarded(Now(a), k, uid)
    ensures Guarded(Now(b), k, uid)
  {
    hide ValidHistory;
    var c := b.(h := b.h[..|b.h| - 1]);
    assert forall i | 0 <= i < |c.h| :: b.h[i] == c.h[i];
    assert b.h[|a.h| - 1] == a.h[|a.h| - 1];
    FinalizerKept(b.h, |a.h| - 1, |b.h| - 1, k, uid);
  }

  lemma MarkStays(h: seq<Entry>, i: nat, j: nat, k: Key)
    requires ValidHistory(h) && i <= j < |h| && k in h[i].now.syncs
             && SyncIs(h[j].now.syncs, k, h[i].now.syncs[k].obj.uid)
    ensures h[i].now.syncs[k].obj.deleting ==> h[j].now.syncs[k].obj.deleting
  {
    hide Anchors, Lawful;
    assert SameObject(h[i].now.syncs[k].obj, h[j].now.syncs[k].obj);
  }

  /** A copy without deletion mark whose finalizer the cache still shows is guarded on the server. */
  lemma CopyIsGuarded(w: World, k: Key)
    requires Inv(w) && k in w.h[w.syncAt].now.syncs
    requires !w.h[w.syncAt].now.syncs[k].obj.deleting && w.h[w.syncAt].now.syncs[k].obj.finalizer
    ensures Guarded(Now(w), k, w.h[w.syncAt].now.syncs[k].obj.uid)
  {
    hide Anchors, Lawful;
    var uid := w.h[w.syncAt].now.syncs[k].obj.uid;
    forall i | w.syncAt < i < |w.h| ensures w.h[i].who != Op(k, uid, RemoveFinalizer) {
      if w.h[i].who == Op(k, uid, RemoveFinalizer) {
        var c :| 0 <= c <= w.syncAt && Marked(w.h[c].now, k, uid);
        MarkStays(w.h, c, w.syncAt, k);
        assert false;
      }
    }
    FinalizerKept(w.h, w.syncAt, |w.h| - 1, k, uid);
  }

  lemma HeldAtVersion(w: World, k: Key, ss: Stored<SecretSync>)
    requires ValidHistory(w.h) && HoldsSync(w, k, ss)
    ensures ss.rv < |w.h| && k in w.h[ss.rv].now.syncs && w.h[ss.rv].now.syncs[k] == ss
  {
    hide Lawful, Identity;
    var i :| 0 <= i < |w.h| && k in w.h[i].now.syncs && w.h[i].now.syncs[k] == ss;
    assert SyncAnchored(w.h, i, k);
  }

  lemma BarePut<T>(m: map<Key, Stored<T>>, k: Key, s: Stored<T>)
    ensures Bare(m[k := s]) == Bare(m)[k := s.obj]
  {
  }

  lemma BareCut<T>(m: map<Key, Stored<T>>, ks: set<Key>)
    ensures Bare(m - ks) == Bare(m) - ks
  {
  }

  function Without(s: Snapshot, ks: set<Key>): Snapshot {
    s.(secrets := s.secrets - ks)
  }

  lemma WithoutMore(s: Snapshot, ks: set<Key>, k: Key)
    ensures Without(s, {}) == s
    ensures Without(Without(s, ks), {k}) == Without(s, ks + {k})
  {
    assert s.secrets - {} == s.secrets;
    assert s.secrets - ks - {k} == s.secrets - (ks + {k});
  }

  /** The stale Secrets of the snapshot behind the cache, in terms of what the cache lists. */
  lemma StaleListed(secrets: SecretMap, k: Key, uid: Uid, current: string)
    ensures forall s :: s in StaleKeys(Bare(secrets), k, uid, current) <==>
                        s in Shown(secrets) && s.ns == k.ns && s.name != current
                            && ControlledBy(Shown(secrets)[s].obj, uid)
    ensures forall s | s in Shown(secrets) ::
              s in secrets && Labelled(secrets[s].obj) && Shown(secrets)[s] == secrets[s]
  {
  }

  // ----- The order of a deletion and of a sweep -----

  /** The target was seen without a Secret of this owner, at an instant the worker looked at. */
  predicate Released(h: seq<Entry>, since: nat, target: Key, uid: Uid) {
    exists d | since <= d < |h| :: !Owned(h[d].now.secrets, target, uid)
  }

  predicate Owned(secrets: SecretMap, target: Key, uid: Uid) {
    target in secrets && Labelled(secrets[target].obj) && ControlledBy(secrets[target].obj, uid)
  }

  /** In between, the finalizer of `k` was not taken away on its behalf. */
  predicate NotLetGo(k: Key, a: World, b: World) {
    forall i | |a.h| <= i < |b.h| && OwnEntry(b.h[i], k) :: !b.h[i].who.step.RemoveFinalizer?
  }

  /** The last thing done is the removal of the finalizer, and before it the target had been released. */
  predicate LetGoLast(k: Key, uid: Uid, target: Key, a: World, b: World) {
    && b.h != []
    && b.h[|b.h| - 1].who == Op(k, uid, RemoveFinalizer)
    && Released(b.h[..|b.h| - 1], a.secretAt, target, uid)
  }

  lemma ReleasedAt(w: World, since: nat, d: nat, target: Key, uid: Uid)
    requires since <= d < |w.h| && !Owned(w.h[d].now.secrets, target, uid)
    ensures Released(w.h, since, target, uid)
  {
  }

  lemma LaterNotLetGo(k: Key, a: World, b: World)
    requires Later(k, a, b)
    ensures NotLetGo(k, a, b)
  {
  }

  /** In between, all that was done on behalf of `k` was to delete the Secret at `s`. */
  predicate DeletesOnly(k: Key, s: Key, a: World, b: World) {
    forall i | |a.h| <= i < |b.h| && OwnEntry(b.h[i], k) ::
      b.h[i].who.step.DeleteSecret? && b.h[i].who.step.target == s
  }

  /** In between, at most the Secret at `s` was deleted on behalf of `k`. */
  predicate DeletesAtMost(k: Key, s: Key, a: World, b: World) {
    forall i | |a.h| <= i < |b.h| && OwnEntry(b.h[i], k) && b.h[i].who.step.DeleteSecret? ::
      b.h[i].who.step.target == s
  }

  lemma LaterDeletesOnly(k: Key, s: Key, a: World, b: World)
    requires Later(k, a, b)
    ensures DeletesOnly(k, s, a, b)
  {
  }

  lemma DeleteDeletesOnly(k: Key, uid: Uid, s: Key, seen: nat, a: World, b: World)
    requires Acts(k, a, b, Op(k, uid, DeleteSecret(s, seen)))
    ensures DeletesOnly(k, s, a, b)
  {
    ActsOnward(k, a, b, Op(k, uid, DeleteSecret(s, seen)));
    var c := b.(h := b.h[..|b.h| - 1]);
    forall i | |a.h| <= i < |b.h| - 1 ensures b.h[i] == c.h[i] {}
  }

  lemma DeletesOnlyTransitive(k: Key, s: Key, a: World, b: World, c: World)
    requires DeletesOnly(k, s, a, b) && DeletesOnly(k, s, b, c) && Onward(b, c)
    ensures DeletesOnly(k, s, a, c)
  {
    forall i | |a.h| <= i < |b.h| ensures c.h[i] == b.h[i] {}
  }

  lemma DeletesOnlyMeans(k: Key, s: Key, a: World, b: World)
    requires DeletesOnly(k, s, a, b)
    ensures NotLetGo(k, a, b) && DeletesAtMost(k, s, a, b)
  {
  }

  lemma DeletesOnlySweeps(k: Key, s: Key, current: string, a: World, b: World)
    requires DeletesOnly(k, s, a, b) && s.ns == k.ns && s.name != current
    ensures OnlySwept(k, current, a, b)
  {
  }

  lemma AndThenActs(k: Key, s: Key, a: World, b: World, c: World, who: Actor)
    requires DeletesOnly(k, s, a, b) && Onward(b, c)
    requires Later(k, b, c) || (Acts(k, b, c, who) && who.Op? && !who.step.DeleteSecret?)
    ensures DeletesAtMost(k, s, a, c)
  {
    forall i | |a.h| <= i < |b.h| ensures c.h[i] == b.h[i] {}
    if !Later(k, b, c) {
      ActsOnward(k, b, c, who);
      var d := c.(h := c.h[..|c.h| - 1]);
      forall i | |b.h| <= i < |c.h| - 1 ensures c.h[i] == d.h[i] {}
    }
  }

  lemma NotLetGoTransitive(k: Key, a: World, b: World, c: World)
    requires NotLetGo(k, a, b) && NotLetGo(k, b, c) && Onward(b, c)
    ensures NotLetGo(k, a, c)
  {
    forall i | |a.h| <= i < |b.h| ensures c.h[i] == b.h[i] {}
  }

  lemma LetsGo(k: Key, uid: Uid, target: Key, a: World, b: World, c: World)
    requires Released(b.h, a.secretAt, target, uid) && Acts(k, b, c, Op(k, uid, RemoveFinalizer))
    ensures LetGoLast(k, uid, target, a, c)
  {
    var before := c.h[..|c.h| - 1];
    var d :| a.secretAt <= d < |b.h| && !Owned(b.h[d].now.secrets, target, uid);
    assert b.h <= before && before[d] == b.h[d];
  }

  /** In between, nothing was deleted on behalf of `k`. */
  predicate NoDeletes(k: Key, a: World, b: World) {
    forall i | |a.h| <= i < |b.h| && OwnEntry(b.h[i], k) :: !b.h[i].who.step.DeleteSecret?
  }

  /** In between, all that was done on behalf of `k` was to delete Secrets of its namespace with other names. */
  predicate OnlySwept(k: Key, current: string, a: World, b: World) {
    forall i | |a.h| <= i < |b.h| && OwnEntry(b.h[i], k) :: SweepsOther(b.h[i], k, current)
  }

  predicate SweepsOther(e: Entry, k: Key, current: string) {
    && OwnEntry(e, k) && e.who.step.DeleteSecret?
    && e.who.step.target.ns == k.ns && e.who.step.target.name != current
  }

  predicate ReportsInSync(e: Entry, k: Key) {
    OwnEntry(e, k) && e.who.step.PutStatus? && k in e.now.syncs && e.now.syncs[k].obj.status.state == InSync
  }

  /**
   Whatever was deleted in between on behalf of `k` was a Secret of its namespace under another name
   than `current`, and was deleted after InSync had been persisted.
   */
  predicate Swept(k: Key, current: string, a: World, b: World) {
    forall i | |a.h| <= i < |b.h| && OwnEntry(b.h[i], k) && b.h[i].who.step.DeleteSecret? ::
      SweepsOther(b.h[i], k, current) && exists j | |a.h| <= j < i :: ReportsInSync(b.h[j], k)
  }

  lemma UntouchedDeletesNone(k: Key, a: World, b: World)
    requires Untouched(k, a, b)
    ensures NoDeletes(k, a, b)
  {
  }

  lemma WriteDeletesNone(k: Key, a: World, b: World, who: Actor)
    requires Acts(k, a, b, who) && who.Op? && !who.step.DeleteSecret?
    ensures NoDeletes(k, a, b)
  {
    ActsOnward(k, a, b, who);
    var c := b.(h := b.h[..|b.h| - 1]);
    forall i | |a.h| <= i < |b.h| - 1 ensures b.h[i] == c.h[i] {}
  }

  lemma NoDeletesTransitive(k: Key, a: World, b: World, c: World)
    requires NoDeletes(k, a, b) && NoDeletes(k, b, c) && Onward(b, c)
    ensures NoDeletes(k, a, c)
  {
    forall i | |a.h| <= i < |b.h| ensures c.h[i] == b.h[i] {}
  }

  lemma NothingSwept(k: Key, current: string, a: World, b: World)
    requires NoDeletes(k, a, b)
    ensures Swept(k, current, a, b)
  {
  }

  lemma SweptEarlier(k: Key, current: string, a: World, b: World, c: World)
    requires NoDeletes(k, a, b) && Swept(k, current, b, c) && Onward(a, b) && Onward(b, c)
    ensures Swept(k, current, a, c)
  {
    hide ReportsInSync, SweepsOther;
    forall i | |a.h| <= i < |b.h| ensures c.h[i] == b.h[i] {}
    forall i | |a.h| <= i < |c.h| && OwnEntry(c.h[i], k) && c.h[i].who.step.DeleteSecret?
      ensures SweepsOther(c.h[i], k, current) && exists j | |a.h| <= j < i :: ReportsInSync(c.h[j], k)
    {
      assert i >= |b.h|;
      var j :| |b.h| <= j < i && ReportsInSync(c.h[j], k);
    }
  }

  lemma SweepFollows(k: Key, current: string, a: World, b: World, c: World)
    requires Untouched(k, a, b) && Onward(b, c) && |a.h| < |b.h| && ReportsInSync(b.h[|b.h| - 1], k)
    requires OnlySwept(k, current, b, c)
    ensures Swept(k, current, a, c)
  {
    hide ReportsInSync, SweepsOther;
    var r := |b.h| - 1;
    assert c.h[r] == b.h[r];
    forall i | |a.h| <= i < |b.h| ensures c.h[i] == b.h[i] {}
  }

  lemma LaterSweepsNone(k: Key, current: string, a: World, b: World)
    requires Later(k, a, b)
    ensures OnlySwept(k, current, a, b)
  {
  }

  lemma OnlySweptTransitive(k: Key, current: string, a: World, b: World, c: World)
    requires OnlySwept(k, current, a, b) && OnlySwept(k, current, b, c) && Onward(b, c)
    ensures OnlySwept(k, current, a, c)
  {
    hide SweepsOther;
    forall i | |a.h| <= i < |b.h| ensures c.h[i] == b.h[i] {}
  }

  /** Of the stale Secrets on the list, `done` have been deleted and all others are among `rest`. */
  predicate Sweeping(items: SecretMap, k: Key, uid: Uid, current: string, stale: set<Key>, done: set<Key>,
                     rest: set<Key>) {
    && rest <= items.Keys && done <= stale <= done + rest
    && (forall s | s in rest :: s.ns == k.ns)
    && (forall s | s in items ::
          s in stale <==> s.ns == k.ns && s.name != current && ControlledBy(items[s].obj, uid))
  }

  lemma SweepListed(secrets: SecretMap, k: Key, uid: Uid, current: string)
    ensures var items := Shown(secrets);
            Sweeping(items, k, uid, current, StaleKeys(Bare(secrets), k, uid, current), {},
                     set s | s in items && s.ns == k.ns)
  {
    hide ControllerOf;
    StaleListed(secrets, k, uid, current);
  }

  lemma SweepItem(items: SecretMap, k: Key, uid: Uid, current: string, stale: set<Key>, done: set<Key>,
                  rest: set<Key>, s: Key)
    requires Sweeping(items, k, uid, current, stale, done, rest) && s in rest
    ensures s in items && s.ns == k.ns
    ensures if s.name == current || !ControlledBy(items[s].obj, uid)
            then Sweeping(items, k, uid, current, stale, done, rest - {s})
            else s in stale && Sweeping(items, k, uid, current, stale, done + {s}, rest - {s})
  {
    hide ControllerOf;
  }

  lemma SweepComplete(items: SecretMap, k: Key, uid: Uid, current: string, stale: set<Key>, done: set<Key>)
    requires Sweeping(items, k, uid, current, stale, done, {})
    ensures done == stale
  {
  }

  /** What the list showed is still on record. */
  lemma ListedOnRecord(listed: World, w: World, s: Key)
    requires Onward(listed, w) && listed.secretAt < |listed.h| && s in Shown(listed.h[listed.secretAt].now.secrets)
    ensures listed.secretAt < |w.h| && s in w.h[listed.secretAt].now.secrets
    ensures w.h[listed.secretAt].now.secrets[s] == Shown(listed.h[listed.secretAt].now.secrets)[s]
    ensures Labelled(w.h[listed.secretAt].now.secrets[s].obj)
  {
    assert w.h[listed.secretAt] == listed.h[listed.secretAt];
  }

  /** The Secret was deleted, or found gone, after entry `since` had come to be the last but one. */
  predicate GoneAt(h: seq<Entry>, since: nat, s: Key) {
    exists d | 0 <= d < |h| && since <= d + 1 :: s !in h[d].now.secrets
  }

  predicate AllGone(h: seq<Entry>, since: nat, keys: set<Key>) {
    forall s | s in keys :: GoneAt(h, since, s)
  }

  /** All Secrets that the cache had shown in between to be stale have been deleted or found gone. */
  predicate Cleaned(k: Key, uid: Uid, current: string, a: World, b: World) {
    exists c | a.secretAt <= c <= b.secretAt && c < |b.h| ::
      AllGone(b.h, |a.h|, StaleKeys(Bare(b.h[c].now.secrets), k, uid, current))
  }

  lemma NothingGone(h: seq<Entry>, since: nat)
    ensures AllGone(h, since, {})
  {
  }

  lemma GoneMore(g: seq<Entry>, h: seq<Entry>, since: nat, keys: set<Key>, s: Key)
    requires AllGone(g, since, keys) && g <= h && h != [] && since <= |h| && s !in h[|h| - 1].now.secrets
    ensures AllGone(h, since, keys + {s})
  {
    GoneStill(g, h, since, since, keys);
    assert GoneAt(h, since, s);
  }

  lemma GoneStill(g: seq<Entry>, h: seq<Entry>, since: nat, earlier: nat, keys: set<Key>)
    requires AllGone(g, since, keys) && g <= h && earlier <= since
    ensures AllGone(h, earlier, keys)
  {
    forall s | s in keys ensures GoneAt(h, earlier, s) {
      assert GoneAt(g, since, s);
      var d :| 0 <= d < |g| && since <= d + 1 && s !in g[d].now.secrets;
      assert s !in h[d].now.secrets;
    }
  }

  lemma CleanedAt(k: Key, uid: Uid, current: string, a: World, listed: World, b: World)
    requires Onward(a, listed) && Onward(listed, b) && listed.secretAt < |listed.h|
    requires AllGone(b.h, |listed.h|, StaleKeys(Bare(listed.h[listed.secretAt].now.secrets), k, uid, current))
    ensures Cleaned(k, uid, current, a, b)
  {
    hide StaleKeys, Bare, AllGone;
    var keys := StaleKeys(Bare(listed.h[listed.secretAt].now.secrets), k, uid, current);
    GoneStill(b.h, b.h, |listed.h|, |a.h|, keys);
    assert b.h[listed.secretAt] == listed.h[listed.secretAt];
  }

  lemma CleanedEarlier(k: Key, uid: Uid, current: string, a: World, b: World, c: World)
    requires Onward(a, b) && Cleaned(k, uid, current, b, c)
    ensures Cleaned(k, uid, current, a, c)
  {
    hide StaleKeys, Bare, AllGone;
    var i :| b.secretAt <= i <= c.secretAt && i < |c.h|
             && AllGone(c.h, |b.h|, StaleKeys(Bare(c.h[i].now.secrets), k, uid, current));
    GoneStill(c.h, c.h, |b.h|, |a.h|, StaleKeys(Bare(c.h[i].now.secrets), k, uid, current));
  }

  /**
   The sweep so far: only stale Secrets have been deleted, `done` are gone unless a call has failed, and
   on a quiet server nothing else has changed.
   */
  predicate SweptSoFar(quiet: bool, k: Key, current: string, listed: World, w: World, done: set<Key>, stale: set<Key>,
                       ok: bool) {
    && listed.h != [] && w.h != []
    && Onward(listed, w) && OnlySwept(k, current, listed, w)
    && (ok ==> AllGone(w.h, |listed.h|, done))
    && (quiet ==> Now(w) == Without(Now(listed), done) && (stale == {} ==> w == listed))
  }

  lemma SweepStarts(quiet: bool, k: Key, current: string, w: World, stale: set<Key>)
    requires w.h != []
    ensures SweptSoFar(quiet, k, current, w, w, {}, stale, true)
  {
    assert Now(w).secrets - {} == Now(w).secrets;
  }

  lemma SweepGoesOn(quiet: bool, k: Key, current: string, listed: World, b: World, c: World, done: set<Key>,
                    stale: set<Key>, s: Key, ok: bool)
    requires SweptSoFar(quiet, k, current, listed, b, done, stale, true) && s in stale && c.h != []
    requires Onward(b, c) && DeletesOnly(k, s, b, c) && s.ns == k.ns && s.name != current
    requires ok ==> s !in Now(c).secrets
    requires quiet ==> Now(c) == Without(Now(b), {s})
    ensures SweptSoFar(quiet, k, current, listed, c, done + {s}, stale, ok)
  {
    hide OnlySwept, DeletesOnly, AllGone, Without;
    WithoutMore(Now(listed), done, s);
    DeletesOnlySweeps(k, s, current, b, c);
    OnlySweptTransitive(k, current, listed, b, c);
    OnwardTransitive(listed, b, c);
    if ok { GoneMore(b.h, c.h, |listed.h|, done, s); }
  }

  lemma SweptOnward(quiet: bool, k: Key, current: string, listed: World, w: World, done: set<Key>, stale: set<Key>)
    requires SweptSoFar(quiet, k, current, listed, w, done, stale, true)
    ensures w.h != [] && Onward(listed, w)
  {
  }

  lemma SweepEnds(quiet: bool, k: Key, uid: Uid, current: string, a: World, listed: World, w: World, done: set<Key>,
                  stale: set<Key>, ok: bool)
    requires SweptSoFar(quiet, k, current, listed, w, done, stale, ok) && Later(k, a, listed)
    requires listed.secretAt < |listed.h|
    requires stale == StaleKeys(Bare(listed.h[listed.secretAt].now.secrets), k, uid, current)
    ensures listed.h != [] && w.h != [] && Onward(a, w) && OnlySwept(k, current, a, w)
    ensures ok && done == stale ==> Cleaned(k, uid, current, a, w)
    ensures quiet && done == stale ==> Now(w) == Without(Now(listed), stale)
    ensures quiet && stale == {} ==> w == listed
  {
    hide OnlySwept, AllGone, Without, StaleKeys, Bare, Cleaned;
    LaterUntouched(k, a, listed);
    LaterSweepsNone(k, current, a, listed);
    OnlySweptTransitive(k, current, a, listed, w);
    OnwardTransitive(a, listed, w);
    if ok && done == stale { CleanedAt(k, uid, current, a, listed, w); }
  }

  // ----- What a reconcile answers -----

  /** The entry stores this status of `k`, with this proof when it says InSync. */
  predicate Stores(e: Entry, k: Key, s: Status, proof: Option<Proof>) {
    && OwnEntry(e, k) && e.who.step.PutStatus? && k in e.now.syncs && e.now.syncs[k].obj.status == s
    && (s.state == InSync ==> e.who.step.proof == proof)
  }

  predicate Persisted(k: Key, a: World, b: World, s: Status, proof: Option<Proof>) {
    exists i | |a.h| <= i < |b.h| :: Stores(b.h[i], k, s, proof)
  }

  /**
   An error or a positive delay. No error means that the outcome has been persisted and asks for no
   backoff; and when no other call has failed, the outcome has been persisted and there is an error
   exactly when it asks for backoff.
   */
  predicate Replied(k: Key, a: World, b: World, r: Result, final: Option<Status>, proof: Option<Proof>, clear: bool) {
    && (r.err || r.requeue > 0)
    && (!r.err || clear ==>
          && final.Some? && Persisted(k, a, b, final.value, proof)
          && (r.err <==> final.value.state == Failing
                         && final.value.reason in {TransientError, SecretWriteFailed, AuthenticationFailed}))
  }

  /**
   How a live SecretSync is answered: the outcome is InSync or Failing, Failing leaves every Secret
   untouched, only stale Secrets are ever deleted, after InSync has been persisted, and InSync without an
   error means that all stale Secrets listed for the sweep are gone.
   */
  predicate Answered(k: Key, uid: Uid, current: string, a: World, b: World, r: Result, final: Option<Status>,
                     proof: Option<Proof>, clear: bool) {
    && Onward(a, b)
    && Replied(k, a, b, r, final, proof, clear)
    && Swept(k, current, a, b)
    && (final.Some? ==> final.value.state in {InSync, Failing})
    && (final.Some? && final.value.state == Failing ==> Untouched(k, a, b))
    && (final.Some? && final.value.state == InSync && !r.err ==> Cleaned(k, uid, current, a, b))
  }

  lemma PersistedEarlier(k: Key, a: World, b: World, c: World, s: Status, proof: Option<Proof>)
    requires Onward(a, b) && Persisted(k, b, c, s, proof)
    ensures Persisted(k, a, c, s, proof)
  {
    hide Stores;
  }

  lemma PersistedStill(k: Key, a: World, b: World, c: World, s: Status, proof: Option<Proof>)
    requires Onward(b, c) && Persisted(k, a, b, s, proof)
    ensures Persisted(k, a, c, s, proof)
  {
    hide Stores;
    var i :| |a.h| <= i < |b.h| && Stores(b.h[i], k, s, proof);
    assert c.h[i] == b.h[i];
  }

  lemma StoredNow(k: Key, a: World, b: World, uid: Uid, s: Status, now: nat, proof: Option<Proof>)
    requires Acts(k, a, b, Op(k, uid, PutStatus(now, proof))) && b.h != []
    requires k in Now(b).syncs && Now(b).syncs[k].obj.status == s
    ensures Persisted(k, a, b, s, proof)
    ensures s.state == InSync ==> ReportsInSync(b.h[|b.h| - 1], k)
  {
    ActsOnward(k, a, b, Op(k, uid, PutStatus(now, proof)));
    assert Stores(b.h[|b.h| - 1], k, s, proof);
  }

  lemma AnsweredEarlier(k: Key, uid: Uid, current: string, a: World, b: World, c: World, r: Result,
                        final: Option<Status>,
                        proof: Option<Proof>, clear: bool, wide: bool)
    requires Onward(a, b) && NoDeletes(k, a, b) && Answered(k, uid, current, b, c, r, final, proof, clear)
             && (wide ==> clear)
    requires final.Some? && final.value.state == Failing ==> Untouched(k, a, b)
    ensures Answered(k, uid, current, a, c, r, final, proof, wide)
  {
    hide Persisted, Onward, Swept, NoDeletes, Untouched, Cleaned;
    OnwardTransitive(a, b, c);
    SweptEarlier(k, current, a, b, c);
    if final.Some? {
      if Persisted(k, b, c, final.value, proof) { PersistedEarlier(k, a, b, c, final.value, proof); }
      if final.value.state == Failing { UntouchedTransitive(k, a, b, c); }
      if Cleaned(k, uid, current, b, c) { CleanedEarlier(k, uid, current, a, b, c); }
    }
  }

  lemma AnsweredOnward(k: Key, uid: Uid, current: string, a: World, b: World, r: Result, final: Option<Status>,
                       proof: Option<Proof>, clear: bool)
    requires Answered(k, uid, current, a, b, r, final, proof, clear)
    ensures Onward(a, b)
  {
  }

  lemma AnsweredAfter(k: Key, uid: Uid, current: string, a: World, b: World, c: World, r: Result, final: Option<Status>,
                      proof: Option<Proof>, clear: bool, wide: bool)
    requires Untouched(k, a, b) && Answered(k, uid, current, b, c, r, final, proof, clear) && (wide ==> clear)
    ensures Answered(k, uid, current, a, c, r, final, proof, wide) && Onward(a, b) && Onward(b, c) && Onward(a, c)
    ensures final.Some? && final.value.state == Failing ==> Untouched(k, a, c)
  {
    hide Replied, Onward, Swept, NoDeletes, Untouched, Cleaned;
    UntouchedOnward(k, a, b);
    UntouchedDeletesNone(k, a, b);
    AnsweredEarlier(k, uid, current, a, b, c, r, final, proof, clear, wide);
  }

  /** Fresh caches: both informers show what the server holds. */
  predicate Fresh(w: World)
    requires w.h != [] && w.secretAt < |w.h| && w.syncAt < |w.h|
  {
    w.h[w.secretAt].now.secrets == Now(w).secrets && w.h[w.syncAt].now.syncs == Now(w).syncs
  }

  /** What a successful observation established, at the point where it is acted upon. */
  predicate Observed(w: World, k: Key, ss: SecretSync, status: Status, gate: bool, value: string, seen: nat,
                     cachedAt: nat, stamped: nat, existing: Option<Secret>, read: VaultRead) {
    && cachedAt <= w.secretAt && w.secretAt < |w.h|
    && existing == VisibleBare(Bare(w.h[cachedAt].now.secrets), TargetKey(k, ss))
    && status.state != Failing
    && read.ReadOk? && (gate <==> !UpToDate(ss, existing, read.version))
    && value == read.version.value && status.syncedVersion == read.version.version
    && seen < |w.h| && Latest(w.h[seen].now.vault, ss.source) == Some(read.version)
    && seen <= stamped < |w.h| && status.lastSync == Some(w.h[stamped].now.clock)
    && LooksOn(w.h, |w.h|, k, cachedAt)
    && forall j | seen < j < |w.h| :: !OwnEntry(w.h[j], k)
  }

  /** The proof holds at some point of this reconcile. */
  predicate Justified(a: World, b: World, k: Key, ss: SecretSync, s: Status, p: Proof) {
    exists i | |a.h| <= i <= |b.h| :: ProofHolds(b.h, i, k, ss, s, p)
  }

  /**
   An InSync status rests on a vault read of this reconcile and on its write, or on a snapshot its cache
   showed during it.
   */
  predicate Sound(a: World, b: World, k: Key, ss: SecretSync, s: Status, p: Proof) {
    |a.h| <= p.seen + 1 && a.secretAt <= p.looked && Justified(a, b, k, ss, s, p)
  }

  lemma SucceededRead(ss: SecretSync, existing: Option<Secret>, read: VaultRead, now: nat)
    requires Verdict(ss, existing, read, now).state != Failing
    ensures read.ReadOk? && !Taken(ss, existing)
    ensures Verdict(ss, existing, read, now) == Succeeded(ss, read.version.version, now)
  {
  }

  lemma BuiltData(s: Secret, want: Intent)
    ensures Built(s, want).data == map[want.dataKey := want.value]
  {
  }

  /** From the vault read to the write this worker has only touched the finalizer. */
  lemma Committed(a: World, b: World, k: Key, ss: Stored<SecretSync>, cur: Stored<SecretSync>, v: VaultVersion,
                  seen: nat)
    requires ValidHistory(b.h) && Untouched(k, a, b) && HoldsSync(b, k, cur) && b.h != []
    requires cur.obj == ss.obj.(finalizer := true) && !ss.obj.deleting
    requires Guarded(Now(b), k, ss.obj.uid)
    requires seen < |a.h| && Latest(a.h[seen].now.vault, ss.obj.source) == Some(v)
    requires forall j | seen < j < |a.h| :: !OwnEntry(a.h[j], k)
    ensures MayWrite(b, k, cur.obj.uid,
                     WriteSecret(TargetKey(k, cur.obj), IntentOf(cur.obj, v.value, v.version), cur.rv, seen))
  {
    hide ValidHistory, HoldsSync, Latest, IntentOf;
    HeldAtVersion(b, k, cur);
    assert b.h[seen] == a.h[seen];
    forall j | seen < j < |b.h| ensures !OwnWrite(b.h[j], k) {
      if j < |a.h| { assert b.h[j] == a.h[j]; }
    }
  }

  lemma StillReportable(k: Key, ss: SecretSync, cur: SecretSync, s: Status)
    requires Reportable(ss, s) && (cur == ss || cur == ss.(finalizer := true))
    ensures Reportable(cur, s) && s.state in {InSync, Failing} && TargetName(k, cur) == TargetName(k, ss)
    ensures Reportable(cur, Failed(cur, TargetConflict)) && Reportable(cur, Failed(cur, TargetImmutable))
    ensures Reportable(cur, Failed(cur, SecretWriteFailed))
  {
  }

  /** In between, all that was done on behalf of `k` was to ensure its finalizer. */
  predicate OnlyGuards(k: Key, a: World, b: World) {
    forall i | |a.h| <= i < |b.h| && OwnEntry(b.h[i], k) :: b.h[i].who.step.AddFinalizer?
  }

  lemma LaterGuards(k: Key, a: World, b: World)
    requires Later(k, a, b)
    ensures OnlyGuards(k, a, b)
  {
  }

  lemma FinalizerGuards(k: Key, uid: Uid, a: World, b: World)
    requires Acts(k, a, b, Op(k, uid, AddFinalizer))
    ensures OnlyGuards(k, a, b)
  {
    ActsOnward(k, a, b, Op(k, uid, AddFinalizer));
    var c := b.(h := b.h[..|b.h| - 1]);
    forall i | |a.h| <= i < |b.h| - 1 ensures b.h[i] == c.h[i] {}
  }

  lemma LooksOnGuards(k: Key, a: World, b: World, looked: nat)
    requires Onward(a, b) && OnlyGuards(k, a, b) && LooksOn(a.h, |a.h|, k, looked)
    ensures LooksOn(b.h, |b.h|, k, looked)
  {
    forall j | 0 <= j < |a.h| ensures b.h[j] == a.h[j] {}
  }

  lemma WriteProof(a: World, b: World, c: World, k: Key, ss: SecretSync, cur: Stored<SecretSync>, v: VaultVersion,
                   seen: nat, s: Status, looked: nat, stamped: nat)
    requires Onward(a, b) && seen < |a.h| && Latest(a.h[seen].now.vault, ss.source) == Some(v)
    requires forall j | seen < j < |a.h| :: !OwnEntry(a.h[j], k)
    requires OnlyGuards(k, a, b) && LooksOn(a.h, |a.h|, k, looked)
    requires seen <= stamped < |a.h| && s.lastSync == Some(a.h[stamped].now.clock)
    requires cur.obj == ss.(finalizer := true) && s.syncedVersion == v.version
    requires var want := IntentOf(cur.obj, v.value, v.version);
             var target := TargetKey(k, cur.obj);
             && Acts(k, b, c, Op(k, cur.obj.uid, WriteSecret(target, want, cur.rv, seen)))
             && target in Now(c).secrets && Exact(Now(c).secrets[target].obj, want)
    ensures ProofHolds(c.h, |c.h|, k, cur.obj, s,
                       Proof(|c.h| - 1, IntentOf(cur.obj, v.value, v.version), seen, looked, stamped))
  {
    hide Exact, Latest, TargetKey, Grounded, LooksOn;
    var want := IntentOf(cur.obj, v.value, v.version);
    var p := Proof(|c.h| - 1, want, seen, looked, stamped);
    var last := Op(k, cur.obj.uid, WriteSecret(TargetKey(k, cur.obj), want, cur.rv, seen));
    ActsOnward(k, b, c, last);
    GroundedStill(a.h, c.h, k, ss, cur.obj, v, seen);
    assert WroteIt(c.h, k, cur.obj, p);
    LooksOnGuards(k, a, b, looked);
    LooksOnWrite(k, b, c, last, looked);
    var d := c.(h := c.h[..|c.h| - 1]);
    assert forall j | 0 <= j < |d.h| :: c.h[j] == d.h[j];
    assert forall j | 0 <= j < |b.h| :: c.h[j] == b.h[j];
    assert forall j | 0 <= j < |a.h| :: c.h[j] == a.h[j];
    forall j | seen < j < |c.h| && OwnEntry(c.h[j], k) ensures c.h[j].who.step.AddFinalizer? || j == p.at {
      assert j >= |a.h|;
    }
  }

  lemma LooksOnWrite(k: Key, a: World, b: World, who: Actor, looked: nat)
    requires LooksOn(a.h, |a.h|, k, looked) && Acts(k, a, b, who) && who.Op? && who.step.WriteSecret?
    ensures LooksOn(b.h, |b.h|, k, looked)
  {
    ActsOnward(k, a, b, who);
    var c := b.(h := b.h[..|b.h| - 1]);
    forall j | 0 <= j < |a.h| ensures b.h[j] == a.h[j] {}
    forall j | |a.h| <= j < |b.h| - 1 ensures b.h[j] == c.h[j] {}
  }

  lemma GroundedStill(h: seq<Entry>, g: seq<Entry>, k: Key, ss: SecretSync, cur: SecretSync, v: VaultVersion, seen: nat)
    requires h <= g && seen < |h| && Latest(h[seen].now.vault, ss.source) == Some(v)
    requires cur == ss.(finalizer := true)
    ensures Grounded(g, k, IntentOf(cur, v.value, v.version), cur, seen)
  {
    hide Latest;
    assert g[seen] == h[seen];
  }

  lemma SkipProof(a: World, b: World, k: Key, ss: SecretSync, cur: SecretSync, v: VaultVersion, seen: nat,
                  cachedAt: nat, existing: Option<Secret>, s: Status, stamped: nat)
    requires Onward(a, b) && seen < |a.h| && Latest(a.h[seen].now.vault, ss.source) == Some(v)
    requires forall j | seen < j < |a.h| :: !OwnEntry(a.h[j], k)
    requires OnlyGuards(k, a, b) && LooksOn(a.h, |a.h|, k, cachedAt)
    requires seen <= stamped < |a.h| && s.lastSync == Some(a.h[stamped].now.clock)
    requires cachedAt <= a.secretAt && a.secretAt < |a.h|
    requires existing == VisibleBare(Bare(a.h[cachedAt].now.secrets), TargetKey(k, ss)) && UpToDate(ss, existing, v)
    requires cur == ss.(finalizer := true) && s.syncedVersion == v.version
    ensures ProofHolds(b.h, |b.h|, k, cur, s,
                       Proof(cachedAt, IntentOf(cur, v.value, v.version), seen, cachedAt, stamped))
  {
    UpToDateIsExact(ss, existing, v);
    BareAt(a.h[cachedAt].now.secrets, TargetKey(k, ss));
    GroundedStill(a.h, b.h, k, ss, cur, v, seen);
    LooksOnGuards(k, a, b, cachedAt);
    hide Exact, Latest, Grounded, UpToDate, LooksOn;
    assert b.h[cachedAt] == a.h[cachedAt];
    assert forall j | 0 <= j < |a.h| :: b.h[j] == a.h[j];
    forall j | seen < j < |b.h| && OwnEntry(b.h[j], k) ensures b.h[j].who.step.AddFinalizer? {
      assert j >= |a.h|;
    }
  }

  /** Evidence gathered for the guarded copy justifies the status reported over the original one. */
  lemma StillSound(a: World, b: World, c: World, k: Key, ss: SecretSync, cur: SecretSync, s: Status, full: Status,
                   p: Proof)
    requires Onward(a, b) && Onward(b, c)
    requires cur == ss || cur == ss.(finalizer := true)
    requires ProofHolds(b.h, |b.h|, k, cur, s, p)
    requires full.(conditions := []) == s
    ensures Justified(a, c, k, ss, full, p)
  {
    ProofPrefix(b.h, c.h, |b.h|, k, cur, s, full, p);
    FinalizerNoProof(c.h, |b.h|, k, cur, ss, full, p);
  }

  lemma FinalizerNoProof(h: seq<Entry>, i: nat, k: Key, cur: SecretSync, ss: SecretSync, s: Status, p: Proof)
    requires i <= |h| && ProofHolds(h, i, k, cur, s, p)
    requires cur == ss || cur == ss.(finalizer := true)
    ensures ProofHolds(h, i, k, ss, s, p)
  {
    hide Exact, Latest;
  }

  /** What the real run did is what the plan says. */
  predicate Matches(a: World, b: World, k: Key, r: Result, final: Option<Status>, e: Effect) {
    && b.h != []
    && ViewOf(Now(b)) == e.view && r == e.result && final == e.final
    && (!e.touched ==> Untouched(k, a, b))
  }

  /** On a quiet server with a current Secret cache: what was observed is the truth. */
  predicate Ideal(w: World, k: Key, ss: Stored<SecretSync>, status: Status, cachedAt: nat, existing: Option<Secret>,
                  read: VaultRead) {
    && CacheCurrent(w) && cachedAt == w.secretAt
    && k in Now(w).syncs && Now(w).syncs[k] == ss
    && existing == VisibleBare(Bare(Now(w).secrets), TargetKey(k, ss.obj))
    && status == Verdict(ss.obj, existing, ReadLatest(ViewOf(Now(w)), ss.obj), Now(w).clock)
    && (status.state != Failing ==> read == ReadLatest(ViewOf(Now(w)), ss.obj))
  }

  lemma IdealStart(w: World, k: Key, ss: Stored<SecretSync>, status: Status, cachedAt: nat, existing: Option<Secret>,
                   read: VaultRead)
    requires Ideal(w, k, ss, status, cachedAt, existing, read)
    ensures CacheCurrent(w) && w.h != [] && k in Now(w).syncs && Now(w).syncs[k] == ss
    ensures OnlyTargetDiffers(w, w, k, ss, ss)
  {
  }

  /** Since `a` at most the target and the finalizer of `k` have changed, and the cache has not moved. */
  predicate OnlyTargetDiffers(a: World, b: World, k: Key, ss: Stored<SecretSync>, cur: Stored<SecretSync>) {
    && a.h != [] && b.h != [] && a.h <= b.h && b.secretAt == a.secretAt
    && Now(b).vault == Now(a).vault && Now(b).clock == Now(a).clock
    && Now(b).syncs == Now(a).syncs[k := cur]
    && (cur.obj == ss.obj || cur.obj == ss.obj.(finalizer := true))
    && var target := TargetKey(k, ss.obj);
       || Now(b).secrets == Now(a).secrets
       || (target in Now(b).secrets && Now(b).secrets == Now(a).secrets[target := Now(b).secrets[target]])
  }

  lemma CacheStillCurrent(a: World, b: World, k: Key, cur: Stored<SecretSync>)
    requires CacheCurrent(a) && b.h != [] && Untouched(k, a, b) && b.secretAt == a.secretAt
    requires Now(b) == Now(a).(syncs := Now(a).syncs[k := cur])
    ensures CacheCurrent(b)
  {
    assert b.h[b.secretAt] == a.h[a.secretAt];
  }

  lemma AfterWrite(a: World, b: World, c: World, k: Key, ss: Stored<SecretSync>, cur: Stored<SecretSync>,
                   want: Intent, seen: nat, o: Outcome)
    requires a.h != [] && b.h != [] && c.h != [] && Onward(a, c) && b.secretAt == a.secretAt
    requires Now(b) == Now(a).(syncs := Now(a).syncs[k := cur])
    requires cur.obj == ss.obj.(finalizer := true)
    requires if o.Nil? then c == Rewritten(b, k, cur.obj.uid, WriteSecret(TargetKey(k, cur.obj), want, cur.rv,
             seen)) else c == b
    ensures OnlyTargetDiffers(a, c, k, ss, cur)
    ensures Bare(Now(c).secrets) ==
            (if o.Nil? then Bare(Now(a).secrets)[TargetKey(k, ss.obj) := Rewrite(Prior(Now(a).secrets, TargetKey(k,
                ss.obj)), want)]
             else Bare(Now(a).secrets))
  {
    hide Rewrite;
    var target := TargetKey(k, ss.obj);
    BarePut(Now(a).secrets, target, Stored(Rewrite(Prior(Now(a).secrets, target), want), |b.h|));
  }

  lemma StillPrepared(a: World, b: World, k: Key, ss: Stored<SecretSync>, cur: Stored<SecretSync>)
    requires CacheCurrent(a) && OnlyTargetDiffers(a, b, k, ss, cur)
    ensures Prepared(b, k, cur)
  {
    hide Labelled, ControlledBy;
    assert b.h[b.secretAt] == a.h[a.secretAt];
    var target := TargetKey(k, ss.obj);
    forall s ensures s in StaleKeys(Bare(Now(b).secrets), k, cur.obj.uid, target.name)
                <==> s in StaleKeys(Bare(Now(a).secrets), k, cur.obj.uid, target.name) {
      BareAt(Now(a).secrets, s);
      BareAt(Now(b).secrets, s);
    }
  }

  /** The outcome of guarding and writing on a quiet server. */
  predicate Secured(a: World, b: World, k: Key, ss: Stored<SecretSync>, cur: Stored<SecretSync>,
                    existing: Option<Secret>,
                    read: VaultRead, attempt: Option<Outcome>) {
    && read.ReadOk? && cur.obj == ss.obj.(finalizer := true)
    && OnlyTargetDiffers(a, b, k, ss, cur)
    && var target := TargetKey(k, ss.obj);
       var want := IntentOf(cur.obj, read.version.value, read.version.version);
       && (attempt.Some? <==> !UpToDate(ss.obj, existing, read.version))
       && (attempt.Some? ==> attempt.value == DirectWrite(Bare(Now(a).secrets), target, want))
       && Bare(Now(b).secrets) ==
          (if attempt == Some(Nil) then Bare(Now(a).secrets)[target := Rewrite(Prior(Now(a).secrets, target), want)]
           else Bare(Now(a).secrets))
  }

  lemma ObservedFacts(w: World, k: Key, ss: SecretSync, status: Status, gate: bool, value: string, seen: nat,
                      cachedAt: nat, stamped: nat, existing: Option<Secret>, read: VaultRead)
    requires Observed(w, k, ss, status, gate, value, seen, cachedAt, stamped, existing, read)
    ensures cachedAt <= w.secretAt && w.secretAt < |w.h|
    ensures existing == VisibleBare(Bare(w.h[cachedAt].now.secrets), TargetKey(k, ss))
    ensures read.ReadOk? && (gate <==> !UpToDate(ss, existing, read.version))
    ensures value == read.version.value && status.syncedVersion == read.version.version
    ensures seen < |w.h| && Latest(w.h[seen].now.vault, ss.source) == Some(read.version)
    ensures seen <= stamped < |w.h| && status.lastSync == Some(w.h[stamped].now.clock)
    ensures LooksOn(w.h, |w.h|, k, cachedAt)
    ensures forall j | seen < j < |w.h| :: !OwnEntry(w.h[j], k)
  {
    hide UpToDate, Latest, VisibleBare, Bare, LooksOn;
  }

  lemma AfterSkip(a: World, b: World, k: Key, ss: Stored<SecretSync>, cur: Stored<SecretSync>)
    requires a.h != [] && b.h != [] && Untouched(k, a, b) && b.secretAt == a.secretAt
    requires Now(b) == Now(a).(syncs := Now(a).syncs[k := cur])
    requires cur.obj == ss.obj.(finalizer := true)
    ensures OnlyTargetDiffers(a, b, k, ss, cur) && Bare(Now(b).secrets) == Bare(Now(a).secrets)
  {
  }

  /** The outcome to report after the write, if there was one. */
  function Resulting(ss: SecretSync, status: Status, attempt: Option<Outcome>): Status {
    if attempt.None? || attempt.value.Nil? then status
    else Failed(ss, if IsTerminal(attempt.value) then TerminalReason(attempt.value) else SecretWriteFailed)
  }

  lemma SecuredTerminal(a: World, b: World, k: Key, ss: Stored<SecretSync>, cur: Stored<SecretSync>, status: Status,
                        existing: Option<Secret>, read: VaultRead, attempt: Option<Outcome>)
    requires Secured(a, b, k, ss, cur, existing, read, attempt) && status.reason == NoReason
    ensures Resulting(cur.obj, status, attempt).reason != SecretWriteFailed
    ensures OnlyTargetDiffers(a, b, k, ss, cur)
  {
    hide UpToDate, Bare, OnlyTargetDiffers, Rewrite, Writable, Foreign, ImmutableBlocks;
  }

  lemma DirectOutcomes(now: map<Key, Secret>, target: Key, want: Intent)
    ensures DirectWrite(now, target, want) in {Nil, ErrTargetConflict, ErrTargetImmutable}
  {
  }

  lemma FulfilPlan(a: World, b: World, c: World, k: Key, ss: Stored<SecretSync>, cur: Stored<SecretSync>,
                   status: Status, outcome: Status,
                   cachedAt: nat, existing: Option<Secret>, read: VaultRead, attempt: Option<Outcome>, r: Result,
                   f: Status, interval: nat)
    requires Ideal(a, k, ss, status, cachedAt, existing, read) && b.h != []
    requires if status.state == Failing then b == a && cur == ss && outcome == status && attempt.None?
             else
               && Secured(a, b, k, ss, cur, existing, read, attempt)
               && outcome == Resulting(cur.obj, status, attempt)
    requires attempt != Some(Nil) ==> Untouched(k, a, b)
    requires Matches(b, c, k, r, Some(f), Plan.Conclude(ViewOf(Now(b)), k, cur.obj, outcome, interval, false))
    ensures Matches(a, c, k, r, Some(f), Plan.SyncTarget(ViewOf(Now(a)), k, ss.obj, interval))
  {
    hide UpToDate, Rewrite, DirectWrite, Verdict, WithReady, StaleKeys, Latest, VisibleBare, Bare, Untouched,
         Plan.Conclude;
    var v := ViewOf(Now(a));
    var target := TargetKey(k, ss.obj);
    BareAt(Now(a).secrets, target);
    if read.ReadOk? {
      DirectOutcomes(v.secrets, target, IntentOf(cur.obj, read.version.value, read.version.version));
    }
    if status.state == Failing {
      ConcludeTouched(v, k, cur.obj, outcome, interval);
    } else {
      BarePutSync(a, b, k, cur);
      var secrets := if attempt == Some(Nil) then ViewOf(Now(b)).secrets else v.secrets;
      assert ViewOf(Now(b)) == v.(syncs := v.syncs[k := cur.obj], secrets := secrets);
      ConcludeOverwritten(v.(secrets := secrets), k, cur.obj, cur.obj, outcome, interval, false);
      ConcludeTouched(v.(secrets := secrets), k, cur.obj, outcome, interval);
      assert attempt != Some(Nil) ==> v.(secrets := secrets) == v;
      assert Plan.SyncTarget(v, k, ss.obj, interval)
          == Plan.Conclude(v.(secrets := secrets), k, cur.obj, outcome, interval, attempt == Some(Nil));
    }
    if attempt != Some(Nil) && !Plan.Conclude(ViewOf(Now(b)), k, cur.obj, outcome, interval, false).touched {
      UntouchedTransitive(k, a, b, c);
    }
  }

  /** The report replaces whatever the view held for `k`. */
  lemma ConcludeOverwritten(v: View, k: Key, x: SecretSync, ss: SecretSync, s: Status, interval: nat, touched: bool)
    ensures Plan.Conclude(v.(syncs := v.syncs[k := x]), k, ss, s, interval, touched) == Plan.Conclude(v, k, ss, s,
            interval, touched)
  {
    hide WithReady, StaleKeys;
    var y := ss.(status := WithReady(ss.status, s, v.clock));
    assert v.syncs[k := x][k := y] == v.syncs[k := y];
  }

  lemma ConcludeTouched(v: View, k: Key, ss: SecretSync, s: Status, interval: nat)
    ensures Plan.Conclude(v, k, ss, s, interval, true) == Plan.Conclude(v, k, ss, s, interval, false).(touched := true)
  {
  }

  lemma BarePutSync(a: World, b: World, k: Key, cur: Stored<SecretSync>)
    requires a.h != [] && b.h != [] && Now(b).syncs == Now(a).syncs[k := cur]
    ensures Bare(Now(b).syncs) == Bare(Now(a).syncs)[k := cur.obj]
  {
    BarePut(Now(a).syncs, k, cur);
  }

  lemma PendingStep(ss: SecretSync, now: nat)
    requires ss.status.state == Unset
    ensures StatusStep(ss, WithReady(ss.status, ss.status.(state := Pending), now), now)
    ensures WithReady(ss.status, ss.status.(state := Pending), now).state == Pending
  {
  }

  lemma FailedReportable(ss: SecretSync)
    ensures Reportable(ss, Failed(ss, TargetConflict))
  {
  }

  lemma VerdictReportable(ss: SecretSync, existing: Option<Secret>, read: VaultRead, status: Status)
    requires status == Verdict(ss, existing, read, if status.lastSync.Some? then status.lastSync.value else 0)
    ensures Reportable(ss, status)
  {
    hide Taken, Managed;
  }

  lemma ObservedHolds(a: World, b: World, k: Key, ss: SecretSync, status: Status, gate: bool, value: string,
                      seen: nat, cachedAt: nat, stamped: nat, existing: Option<Secret>, read: VaultRead)
    requires Later(k, a, b) && |a.h| <= seen + 1
    requires seen <= stamped < |b.h| && status.lastSync == Some(b.h[stamped].now.clock)
    requires LooksOn(b.h, |b.h|, k, cachedAt)
    requires cachedAt <= b.secretAt && b.secretAt < |b.h|
    requires existing == VisibleBare(Bare(b.h[cachedAt].now.secrets), TargetKey(k, ss))
    requires status.state != Failing
    requires read.ReadOk? && (gate <==> !UpToDate(ss, existing, read.version))
    requires value == read.version.value && status.syncedVersion == read.version.version
    requires seen < |b.h| && Latest(b.h[seen].now.vault, ss.source) == Some(read.version)
    ensures Observed(b, k, ss, status, gate, value, seen, cachedAt, stamped, existing, read)
  {
    hide UpToDate, Latest, VisibleBare, Bare, LooksOn;
  }

  lemma ObservedIdeal(w: World, k: Key, ss: Stored<SecretSync>, status: Status, seen: nat, cachedAt: nat,
                      existing: Option<Secret>, read: VaultRead)
    requires CacheCurrent(w) && cachedAt == w.secretAt && k in Now(w).syncs && Now(w).syncs[k] == ss
    requires existing == VisibleBare(Bare(w.h[cachedAt].now.secrets), TargetKey(k, ss.obj))
    requires status == Verdict(ss.obj, existing, ReadLatest(ViewOf(Now(w)), ss.obj), Now(w).clock)
    requires status.state != Failing ==>
               read.ReadOk? && |w.h| <= seen + 1 && seen < |w.h|
                   && Latest(w.h[seen].now.vault, ss.obj.source) == Some(read.version)
    ensures Ideal(w, k, ss, status, cachedAt, existing, read)
  {
    hide Verdict, Latest, VisibleBare, Bare;
  }

  lemma JustifiedEarlier(a: World, b: World, c: World, k: Key, ss: SecretSync, s: Status, p: Proof)
    requires Onward(a, b) && Justified(b, c, k, ss, s, p)
    ensures Justified(a, c, k, ss, s, p)
  {
    hide ProofHolds;
  }

  lemma SoundEarlier(a: World, b: World, c: World, k: Key, ss: SecretSync, s: Status, p: Proof)
    requires Onward(a, b) && Sound(b, c, k, ss, s, p)
    ensures Sound(a, c, k, ss, s, p)
  {
    hide ProofHolds;
  }

  /** An error without an outcome, after a failed call. */
  lemma NoAnswer(k: Key, uid: Uid, current: string, a: World, b: World, proof: Option<Proof>)
    requires Untouched(k, a, b)
    ensures Answered(k, uid, current, a, b, Result(true, 0), None, proof, false)
  {
    hide Swept, Untouched;
    UntouchedOnward(k, a, b);
    UntouchedDeletesNone(k, a, b);
    NothingSwept(k, current, a, b);
  }

  lemma WriteFailureAnswered(k: Key, uid: Uid, current: string, a: World, b: World, c: World, ss: SecretSync,
                             f: Status, clear: bool)
    requires Untouched(k, a, b) && Untouched(k, b, c) && f.(conditions := []) == Failed(ss, SecretWriteFailed)
    requires clear ==> Persisted(k, b, c, f, None)
    ensures Answered(k, uid, current, a, c, Result(true, 0), Some(f), None, clear)
  {
    hide Persisted, Swept, Untouched;
    UntouchedTransitive(k, a, b, c);
    UntouchedOnward(k, a, b);
    UntouchedOnward(k, a, c);
    UntouchedDeletesNone(k, a, c);
    NothingSwept(k, current, a, c);
    if clear { PersistedEarlier(k, a, b, c, f, None); }
  }

  /** A Secret at the target that is neither labelled nor ours, or that somebody else controls. */
  predicate InTheWay(secrets: SecretMap, target: Key, uid: Uid) {
    target in secrets && (!Writable(secrets[target].obj, uid) || Foreign(secrets[target].obj, uid))
  }

  /** At `d` the target was frozen with other data than the vault held at `seen`. */
  predicate FrozenOver(h: seq<Entry>, k: Key, ss: SecretSync, d: nat, seen: nat)
    requires d < |h| && seen < |h|
  {
    var target, v := TargetKey(k, ss), Latest(h[seen].now.vault, ss.source);
    && v.Some? && target in h[d].now.secrets
    && ImmutableBlocks(h[d].now.secrets[target].obj, DataKey(ss), v.value.value)
  }

  /**
   What a failure that blames the target or the write rests on: a copy of the target, no older than the
   cache at the start, that was in the way or frozen over a vault read in between; or a failed call.
   */
  predicate Blamed(k: Key, a: World, b: World, ss: SecretSync, reason: Reason, before: seq<Call>, calls: seq<Call>) {
    match reason
    case TargetConflict =>
      exists d: nat | a.secretAt <= d < |b.h| :: InTheWay(b.h[d].now.secrets, TargetKey(k, ss), ss.uid)
    case TargetImmutable =>
      exists d: nat, seen: nat | a.secretAt <= d < |b.h| && seen < |b.h|
          && |a.h| <= seen + 1 :: FrozenOver(b.h, k, ss, d, seen)
    case SecretWriteFailed => before <= calls && exists i | |before| <= i < |calls| :: Unsuccessful(calls[i])
    case _ => true
  }

  lemma BlamedEarlier(k: Key, a: World, b: World, c: World, ss: SecretSync, reason: Reason, before: seq<Call>,
                      calls: seq<Call>)
    requires Onward(a, b) && Blamed(k, b, c, ss, reason, before, calls)
    ensures Blamed(k, a, c, ss, reason, before, calls)
  {
    hide InTheWay, FrozenOver, Unsuccessful;
  }

  /** The same for a write that asked for what the vault held at `seen`. */
  predicate Accounted(k: Key, a: World, b: World, ss: SecretSync, reason: Reason, seen: nat, before: seq<Call>,
                      calls: seq<Call>) {
    match reason
    case TargetConflict =>
      exists d: nat | a.secretAt <= d < |b.h| :: InTheWay(b.h[d].now.secrets, TargetKey(k, ss), ss.uid)
    case TargetImmutable =>
      seen < |b.h| && exists d: nat | a.secretAt <= d < |b.h| :: FrozenOver(b.h, k, ss, d, seen)
    case SecretWriteFailed => before <= calls && exists i | |before| <= i < |calls| :: Unsuccessful(calls[i])
    case _ => false
  }

  lemma AccountedBlamed(k: Key, a: World, b: World, c: World, ss: SecretSync, reason: Reason, seen: nat,
                        before: seq<Call>, calls: seq<Call>)
    requires Onward(a, b) && |a.h| <= seen + 1 && Accounted(k, b, c, ss, reason, seen, before, calls)
    ensures Blamed(k, a, c, ss, reason, before, calls)
  {
    hide InTheWay, FrozenOver, Unsuccessful;
  }

  /** The outcome of a write that was not accepted, in terms of what its calls showed. */
  lemma AttemptAccounted(k: Key, a: World, b: World, c: World, ss: SecretSync, cur: SecretSync, v: VaultVersion,
                         seen: nat,
                         cs: seq<Call>, o: Outcome, before: seq<Call>, reason: Reason)
    requires cur == ss.(finalizer := true) && seen < |b.h| && b.h <= c.h
    requires Latest(b.h[seen].now.vault, ss.source) == Some(v)
    requires WriteScript(IntentOf(cur, v.value, v.version), cs, o) && o != Nil
    requires OnRecord(b.h, a.secretAt, TargetKey(k, cur), cs)
    requires reason == if IsTerminal(o) then TerminalReason(o) else SecretWriteFailed
    ensures Accounted(k, a, c, ss, reason, seen, before, before + cs)
  {
    hide WriteScript, Latest, ImmutableBlocks, Writable, Foreign, Unsuccessful;
    var want := IntentOf(cur, v.value, v.version);
    OutcomeHasCause(want, cs, o);
    assert c.h[seen] == b.h[seen];
    if IsTerminal(o) {
      var i :| 0 <= i < |cs| && RefusedFor(cs[i], want, o);
      assert LookedAt(b.h, a.secretAt, TargetKey(k, cur), cs[i].r.item, cs[i].at);
      assert c.h[cs[i].at] == b.h[cs[i].at];
      if o == ErrTargetImmutable {
        assert FrozenOver(c.h, k, ss, cs[i].at, seen);
      } else {
        assert InTheWay(c.h[cs[i].at].now.secrets, TargetKey(k, ss), ss.uid);
      }
    } else {
      var i :| 0 <= i < |cs| && Unsuccessful(cs[i]);
      assert (before + cs)[|before| + i] == cs[i];
    }
  }

  lemma AccountedStill(k: Key, a: World, b: World, c: World, ss: SecretSync, reason: Reason, seen: nat,
                       before: seq<Call>, calls: seq<Call>)
    requires Onward(b, c) && Accounted(k, a, b, ss, reason, seen, before, calls)
    ensures Accounted(k, a, c, ss, reason, seen, before, calls)
  {
    hide InTheWay, Latest, TargetKey, DataKey, ImmutableBlocks, Unsuccessful;
    forall d | 0 <= d < |b.h| ensures c.h[d] == b.h[d] {}
    match reason
    case TargetConflict =>
      var d: nat :| a.secretAt <= d < |b.h| && InTheWay(b.h[d].now.secrets, TargetKey(k, ss), ss.uid);
      assert InTheWay(c.h[d].now.secrets, TargetKey(k, ss), ss.uid);
    case TargetImmutable =>
      var d: nat :| a.secretAt <= d < |b.h| && FrozenOver(b.h, k, ss, d, seen);
      assert FrozenOver(c.h, k, ss, d, seen);
    case _ =>
  }

  lemma OnRecordEarlier(h: seq<Entry>, since: nat, later: nat, target: Key, cs: seq<Call>)
    requires OnRecord(h, later, target, cs) && since <= later
    ensures OnRecord(h, since, target, cs)
  {
    OnRecordAll(h, h, since, later, target, [], cs);
    assert [] + cs == cs;
  }

  /** A target that the engine refused was in the way in the snapshot it had looked at. */
  lemma VerdictBlamed(k: Key, a: World, b: World, c: World, ss: SecretSync, cachedAt: nat, existing: Option<Secret>,
                      read: VaultRead, status: Status, before: seq<Call>, calls: seq<Call>)
    requires a.secretAt <= cachedAt < |b.h| && b.h <= c.h
    requires existing == VisibleBare(Bare(b.h[cachedAt].now.secrets), TargetKey(k, ss))
    requires status == Verdict(ss, existing, read, if status.lastSync.Some? then status.lastSync.value else 0)
    requires status.state == Failing
    ensures Blamed(k, a, c, ss, status.reason, before, calls)
  {
    hide ControllerOf, Managed;
    BareAt(b.h[cachedAt].now.secrets, TargetKey(k, ss));
    assert c.h[cachedAt] == b.h[cachedAt];
    if Taken(ss, existing) {
      assert InTheWay(c.h[cachedAt].now.secrets, TargetKey(k, ss), ss.uid);
    }
  }

  /**
   A reason that blames the vault is how its one answer in between is classified, given whether the target
   was already ours in the snapshot that the reconcile had looked at.
   */
  predicate Explained(k: Key, a: World, b: World, ss: SecretSync, reason: Reason, before: seq<VaultRead>,
                      answers: seq<VaultRead>) {
    FromVault(reason) ==>
      && |answers| == |before| + 1 && answers[|before|].ReadFailed?
      && exists c: nat | a.secretAt <= c <= b.secretAt && c < |b.h| ::
           Classified(answers[|before|].error, OursIn(b.h[c].now.secrets, TargetKey(k, ss), ss.uid), reason)
  }

  predicate OursIn(secrets: SecretMap, target: Key, uid: Uid) {
    target in secrets && OursAlready(Some(secrets[target].obj), uid)
  }

  lemma VerdictExplained(k: Key, a: World, b: World, ss: SecretSync, cachedAt: nat, existing: Option<Secret>,
                         read: VaultRead, status: Status, before: seq<VaultRead>, answers: seq<VaultRead>)
    requires a.secretAt <= cachedAt <= b.secretAt && cachedAt < |b.h|
    requires existing == VisibleBare(Bare(b.h[cachedAt].now.secrets), TargetKey(k, ss))
    requires status == Verdict(ss, existing, read, if status.lastSync.Some? then status.lastSync.value else 0)
    requires answers == before + if Taken(ss, existing) then [] else [read]
    ensures Explained(k, a, b, ss, status.reason, before, answers)
  {
    BareAt(b.h[cachedAt].now.secrets, TargetKey(k, ss));
    ManagedIsOurs(ss, existing);
    hide Taken, Managed, ClassifyReaderError, Classified, FirstController;
    if FromVault(status.reason) {
      assert !Taken(ss, existing) && read.ReadFailed?;
      assert answers[|before|] == read;
      assert OursAlready(existing, ss.uid) <==> OursIn(b.h[cachedAt].now.secrets, TargetKey(k, ss), ss.uid);
      assert Classified(read.error, OursIn(b.h[cachedAt].now.secrets, TargetKey(k, ss), ss.uid), status.reason);
    }
  }

  lemma ExplainedLonger(k: Key, a: World, b: World, c: World, d: World, ss: SecretSync, reason: Reason,
                        before: seq<VaultRead>, answers: seq<VaultRead>)
    requires Onward(a, b) && Onward(c, d) && Explained(k, b, c, ss, reason, before, answers)
    ensures Explained(k, a, d, ss, reason, before, answers)
  {
    hide Classified, OursIn;
    if FromVault(reason) {
      var i: nat :| b.secretAt <= i <= c.secretAt && i < |c.h|
        && Classified(answers[|before|].error, OursIn(c.h[i].now.secrets, TargetKey(k, ss), ss.uid), reason);
      assert d.h[i] == c.h[i];
    }
  }

  lemma AccountedExplained(k: Key, a: World, b: World, w: World, x: World, ss: SecretSync, reason: Reason, seen: nat,
                           before: seq<Call>, calls: seq<Call>, answers: seq<VaultRead>, more: seq<VaultRead>)
    requires Accounted(k, a, b, ss, reason, seen, before, calls)
    ensures Explained(k, w, x, ss, reason, answers, more)
  {
  }

  /** The SecretSync cache showed at `listed` a stronger live claim on the target. */
  predicate Outranked(k: Key, w: World, ss: SecretSync, listed: nat) {
    listed < |w.h| && Contested(Bare(w.h[listed].now.syncs), k, ss)
  }

  /** The claim was arbitrated by a list the cache showed in between; a refused claim ends there. */
  predicate Arbitrated(k: Key, a: World, b: World, ss: SecretSync, listed: nat, final: Option<Status>) {
    && a.syncAt <= listed <= b.syncAt && listed < |b.h|
    && (Outranked(k, b, ss, listed) ==>
          Untouched(k, a, b) && final.Some? && final.value.state == Failing && final.value.reason == TargetConflict)
  }

  lemma ArbitratedThen(k: Key, a: World, b: World, c: World, ss: SecretSync, blocked: bool, final: Option<Status>)
    requires Onward(a, b) && Onward(b, c) && b.syncAt < |b.h|
    requires blocked <==> Blocked(Bare(b.h[b.syncAt].now.syncs), k, ss)
    requires blocked ==>
               Untouched(k, a, c) && final.Some? && final.value.state == Failing && final.value.reason == TargetConflict
    ensures Arbitrated(k, a, c, ss, b.syncAt, final)
    ensures Outranked(k, c, ss, b.syncAt) <==> blocked
  {
    hide Bare, Blocked, Contested;
    assert c.h[b.syncAt] == b.h[b.syncAt];
    BlockedByStronger(Bare(b.h[b.syncAt].now.syncs), k, ss);
  }

  lemma ArbitratedEarlier(k: Key, a: World, b: World, c: World, ss: SecretSync, listed: nat, final: Option<Status>)
    requires Onward(a, b) && Untouched(k, a, b) && Arbitrated(k, b, c, ss, listed, final)
    ensures Arbitrated(k, a, c, ss, listed, final)
  {
    hide Outranked;
    if Outranked(k, c, ss, listed) { UntouchedTransitive(k, a, b, c); }
    UntouchedOnward(k, a, b);
  }

  /**
   What a claim came to. Without a list nothing was done. With one, the SecretSync had been announced; a
   refused claim reads and writes nothing; any other failure is explained by what the vault or the calls
   answered and what the target held; and InSync is sound.
   */
  predicate Judged(k: Key, a: World, b: World, ss: SecretSync, listed: Option<nat>, final: Option<Status>,
                   proof: Option<Proof>, before: Record, after: Record) {
    match listed
    case None => final.None? && Untouched(k, a, b) && after == before
    case Some(at) =>
      && ss.status.state != Unset
      && Arbitrated(k, a, b, ss, at, final)
      && (Outranked(k, b, ss, at) ==> after == before)
      && (final.Some? && final.value.state == Failing ==>
            && Explained(k, a, b, ss, final.value.reason, before.answers, after.answers)
            && (Outranked(k, b, ss, at) || Blamed(k, a, b, ss, final.value.reason, before.calls, after.calls)))
      && (final.Some? && final.value.state == InSync ==> proof.Some? && Sound(a, b, k, ss, final.value, proof.value))
  }

  lemma SameTarget(k: Key, ss: SecretSync, cur: SecretSync)
    requires cur.(status := ss.status) == ss
    ensures TargetName(k, cur) == TargetName(k, ss) && cur.uid == ss.uid
  {
  }

  lemma NothingJudged(k: Key, a: World, b: World, ss: SecretSync, proof: Option<Proof>, before: Record)
    requires Untouched(k, a, b)
    ensures Judged(k, a, b, ss, None, None, proof, before, before)
  {
  }

  /** A claim blocked at `b`. */
  lemma JudgedBlocked(k: Key, a: World, b: World, c: World, ss: SecretSync, f: Status, before: Record, r: Result,
                      clear: bool,
                      wide: bool, current: string)
    requires wide ==> clear
    requires Untouched(k, a, b) && b.syncAt < |b.h| && Blocked(Bare(b.h[b.syncAt].now.syncs), k, ss)
    requires ss.status.state != Unset && f.(conditions := []) == Failed(ss, TargetConflict)
    requires Answered(k, ss.uid, current, b, c, r, Some(f), None, clear)
    ensures Judged(k, a, c, ss, Some(b.syncAt), Some(f), None, before, before)
    ensures Answered(k, ss.uid, current, a, c, r, Some(f), None, wide) && Onward(b, c)
  {
    hide Bare, Blocked, Untouched, Swept, Cleaned, Blamed, Replied, Onward;
    UntouchedOnward(k, a, b);
    UntouchedTransitive(k, a, b, c);
    AnsweredAfter(k, ss.uid, current, a, b, c, r, Some(f), None, clear, wide);
    ArbitratedThen(k, a, b, c, ss, true, Some(f));
    assert c.h[b.syncAt] == b.h[b.syncAt] by { OnwardKeeps(b, c, b.syncAt); }
  }

  /** A claim that nobody blocked at `b`. */
  lemma JudgedSynced(k: Key, a: World, b: World, c: World, ss: SecretSync, final: Option<Status>, proof: Option<Proof>,
                     before: Record, after: Record, r: Result, clear: bool, wide: bool, current: string)
    requires wide ==> clear
    requires Untouched(k, a, b) && b.syncAt < |b.h| && !Blocked(Bare(b.h[b.syncAt].now.syncs), k, ss)
    requires ss.status.state != Unset
    requires Answered(k, ss.uid, current, b, c, r, final, proof, clear)
    requires final.Some? && final.value.state == Failing ==>
               && Explained(k, b, c, ss, final.value.reason, before.answers, after.answers)
               && Blamed(k, b, c, ss, final.value.reason, before.calls, after.calls)
    requires final.Some? && final.value.state == InSync ==> proof.Some? && Sound(b, c, k, ss, final.value, proof.value)
    ensures Judged(k, a, c, ss, Some(b.syncAt), final, proof, before, after)
    ensures Answered(k, ss.uid, current, a, c, r, final, proof, wide) && Onward(b, c)
  {
    hide Bare, Blocked, Untouched, Swept, Cleaned, Blamed, Replied, Onward, Explained, Sound;
    UntouchedOnward(k, a, b);
    AnsweredAfter(k, ss.uid, current, a, b, c, r, final, proof, clear, wide);
    ArbitratedThen(k, a, b, c, ss, false, final);
    if final.Some? && final.value.state == Failing {
      BlamedEarlier(k, a, b, c, ss, final.value.reason, before.calls, after.calls);
      OnwardReflexive(c);
      ExplainedLonger(k, a, b, c, c, ss, final.value.reason, before.answers, after.answers);
    }
    if final.Some? && final.value.state == InSync { SoundEarlier(a, b, c, k, ss, final.value, proof.value); }
  }

  lemma JudgedAfter(k: Key, a: World, b: World, c: World, ss: SecretSync, listed: Option<nat>, final: Option<Status>,
                    proof: Option<Proof>, before: Record, after: Record)
    requires Untouched(k, a, b) && Judged(k, b, c, ss, listed, final, proof, before, after)
    ensures Judged(k, a, c, ss, listed, final, proof, before, after)
  {
    hide Untouched, Onward, Outranked, Arbitrated, Blamed, Explained, Sound;
    UntouchedOnward(k, a, b);
    if listed.None? {
      UntouchedTransitive(k, a, b, c);
    } else {
      ArbitratedEarlier(k, a, b, c, ss, listed.value, final);
      if final.Some? && final.value.state == Failing {
        OnwardReflexive(c);
        ExplainedLonger(k, a, b, c, c, ss, final.value.reason, before.answers, after.answers);
      }
      if final.Some? && final.value.state == Failing && !Outranked(k, c, ss, listed.value) {
        BlamedEarlier(k, a, b, c, ss, final.value.reason, before.calls, after.calls);
      }
      if final.Some? && final.value.state == InSync { SoundEarlier(a, b, c, k, ss, final.value, proof.value); }
    }
  }

  /** The cache has shown the SecretSync gone or marked for deletion: there is nothing left to retry. */
  predicate Leaving(a: World, b: World, k: Key) {
    exists c | a.syncAt <= c <= b.syncAt && c < |b.h| ::
      k !in b.h[c].now.syncs || b.h[c].now.syncs[k].obj.deleting
  }

  lemma LeavingHere(a: World, b: World, k: Key)
    requires Onward(a, b) && b.syncAt < |b.h|
    requires k !in b.h[b.syncAt].now.syncs || b.h[b.syncAt].now.syncs[k].obj.deleting
    ensures Leaving(a, b, k)
  {
  }

  lemma LeavingStill(a: World, b: World, c: World, k: Key)
    requires Leaving(a, b, k) && Onward(b, c)
    ensures Leaving(a, c, k)
  {
    var i :| a.syncAt <= i <= b.syncAt && i < |b.h| && (k !in b.h[i].now.syncs || b.h[i].now.syncs[k].obj.deleting);
    assert c.h[i] == b.h[i];
  }

  lemma FreshMeans(w: World, k: Key)
    requires w.h != [] && w.secretAt < |w.h| && w.syncAt < |w.h| && Fresh(w)
    ensures CacheCurrent(w)
    ensures w.h[w.syncAt].now.syncs == Now(w).syncs
  {
  }

  lemma InView(w: World, k: Key)
    requires w.h != []
    ensures k in ViewOf(Now(w)).syncs <==> k in Now(w).syncs
  {
    BareAt(Now(w).syncs, k);
  }

  lemma NothingToDo(w: World, k: Key, interval: nat)
    requires w.h != [] && k !in Now(w).syncs
    ensures Matches(w, w, k, Result(false, 0), None, Reconciled(ViewOf(Now(w)), k, interval))
  {
    BareAt(Now(w).syncs, k);
    UntouchedReflexive(k, w);
  }

  lemma DeletePlan(a: World, b: World, k: Key, ss: Stored<SecretSync>, interval: nat)
    requires a.h != [] && b.h != [] && k in Now(a).syncs && Now(a).syncs[k] == ss && ss.obj.deleting
    requires k in ViewOf(Now(a)).syncs
    requires ViewOf(Now(b)) == Deleted(ViewOf(Now(a)), k, ss.obj).view
    requires !Deleted(ViewOf(Now(a)), k, ss.obj).touched ==> Untouched(k, a, b)
    ensures Matches(a, b, k, Result(false, 0), None, Reconciled(ViewOf(Now(a)), k, interval))
  {
    hide Untouched, VisibleBare, Departed;
    BareAt(Now(a).syncs, k);
  }

  lemma AnnouncedPlan(a: World, b: World, k: Key, ss: Stored<SecretSync>, cur: Stored<SecretSync>, interval: nat)
    requires CacheCurrent(a) && a.syncAt < |a.h| && a.h[a.syncAt].now.syncs == Now(a).syncs
    requires k in Now(a).syncs && Now(a).syncs[k] == ss
    requires b.h != [] && Untouched(k, a, b) && b.secretAt == a.secretAt && b.syncAt == a.syncAt
    requires cur.obj == Announced(ss.obj, Now(a).clock)
    requires Now(b) == Now(a).(syncs := Now(a).syncs[k := cur])
    ensures CacheCurrent(b) && k in Now(b).syncs && Now(b).syncs[k] == cur
    ensures b.syncAt < |b.h| && Bare(b.h[b.syncAt].now.syncs) == ViewOf(Now(a)).syncs
    ensures Prepared(b, k, cur)
  {
    hide Bare, StaleKeys, WithReady;
    assert b.h[b.secretAt] == a.h[a.secretAt] && b.h[b.syncAt] == a.h[a.syncAt];
  }

  lemma ReconcilePlan(a: World, b: World, c: World, k: Key, ss: Stored<SecretSync>, cur: Stored<SecretSync>,
                      blocked: bool,
                      r: Result, final: Option<Status>, interval: nat)
    requires a.h != [] && b.h != [] && k in Now(a).syncs && Now(a).syncs[k] == ss && !ss.obj.deleting
    requires Untouched(k, a, b)
    requires cur.obj == Announced(ss.obj, Now(a).clock)
    requires Now(b) == Now(a).(syncs := Now(a).syncs[k := cur])
    requires blocked <==> Blocked(ViewOf(Now(a)).syncs, k, cur.obj)
    requires Matches(b, c, k, r, final,
                     if blocked then Plan.Conclude(ViewOf(Now(b)), k, cur.obj, Failed(cur.obj, TargetConflict),
                         interval, false)
                     else Plan.SyncTarget(ViewOf(Now(b)), k, cur.obj, interval))
    ensures Matches(a, c, k, r, final, Reconciled(ViewOf(Now(a)), k, interval))
  {
    hide Untouched, Bare, Blocked, Plan.Conclude, Plan.SyncTarget, WithReady;
    var v := ViewOf(Now(a));
    BareAt(Now(a).syncs, k);
    BarePut(Now(a).syncs, k, cur);
    assert ViewOf(Now(b)) == v.(syncs := v.syncs[k := cur.obj]);
    if blocked {
      ConcludeOverwritten(v, k, cur.obj, cur.obj, Failed(cur.obj, TargetConflict), interval, false);
    } else {
      SyncTargetOverwrites(v, k, cur.obj, interval);
    }
    if !Reconciled(v, k, interval).touched {
      UntouchedTransitive(k, a, b, c);
    }
  }

  lemma SyncTargetOverwrites(v: View, k: Key, ss: SecretSync, interval: nat)
    ensures Plan.SyncTarget(v.(syncs := v.syncs[k := ss]), k, ss, interval) == Plan.SyncTarget(v, k, ss, interval)
  {
    hide UpToDate, DirectWrite, Verdict, VisibleBare, Latest, Rewrite, Plan.Conclude;
    var u := v.(syncs := v.syncs[k := ss]);
    var read := ReadLatest(v, ss);
    var target := TargetKey(k, ss);
    var verdict := Verdict(ss, VisibleBare(v.secrets, target), read, v.clock);
    var guarded := ss.(finalizer := true);
    ConcludeOverwritten(v, k, ss, ss, verdict, interval, false);
    ConcludeOverwritten(v, k, ss, guarded, verdict, interval, false);
    ConcludeOverwritten(v, k, ss, guarded, Failed(ss, TargetConflict), interval, false);
    ConcludeOverwritten(v, k, ss, guarded, Failed(ss, TargetImmutable), interval, false);
    if read.ReadOk? {
      var prior := if target in v.secrets then v.secrets[target] else BLANK;
      var want := IntentOf(ss, read.version.value, read.version.version);
      ConcludeOverwritten(v.(secrets := v.secrets[target := Rewrite(prior, want)]), k, ss, guarded, verdict,
          interval, true);
    }
  }

  /** The Secret cache shows what the server holds. */
  predicate CacheCurrent(w: World) {
    w.h != [] && w.secretAt < |w.h| && w.h[w.secretAt].now.secrets == Now(w).secrets
  }

  /** Both caches show what the server holds, and the held copy is current. */
  predicate AllFresh(w: World, k: Key, ss: Stored<SecretSync>) {
    && CacheCurrent(w) && w.syncAt < |w.h| && w.h[w.syncAt].now.syncs == Now(w).syncs
    && k in Now(w).syncs && Now(w).syncs[k] == ss
  }

  lemma CurrentCacheWrite(now: SecretMap, target: Key, want: Intent)
    ensures CachedWrite(now, target, Visible(now, target), want) == DirectWrite(Bare(now), target, want)
  {
    hide CachedWrite, DirectWrite;
    CachedWriteAgrees(now, target, Visible(now, target), want);
  }

  lemma OnwardGrows(a: World, b: World)
    requires Onward(a, b)
    ensures a.h <= b.h
  {
  }

  lemma CommitNow(w: World, who: Actor, now: Snapshot)
    ensures Now(Commit(w, who, now)) == now && Commit(w, who, now).secretAt == w.secretAt
    ensures Commit(w, who, now).syncAt == w.syncAt
    ensures Commit(w, who, now).h != []
  {
  }

  /** Right after an accepted write the target is exactly what was wanted. */
  lemma WriteIsExact(w: World, k: Key, uid: Uid, t: Step)
    requires ValidHistory(w.h) && |w.h| > 1 && t.WriteSecret? && w.h[|w.h| - 1].who == Op(k, uid, t)
    ensures t.target in Now(w).secrets && Exact(Now(w).secrets[t.target].obj, t.want)
  {
    hide ValidHistory, Rewrite, Exact;
    LegalAt(w.h, |w.h| - 1);
    var prior := Prior(w.h[|w.h| - 2].now.secrets, t.target);
    BlankUnowned(uid);
    RewriteExact(prior, t.want);
  }

  /** A freshly computed terminal status that keeps the last known good values unless it is a success. */
  predicate Reportable(ss: SecretSync, s: Status) {
    && s.conditions == []
    && s.observedGeneration == ss.generation
    && match s.state
       case InSync => s.reason == NoReason && s.lastSync.Some?
       case Failing =>
         s.reason != NoReason && s.lastSync == ss.status.lastSync && s.syncedVersion == ss.status.syncedVersion
       case _ => false
  }

  lemma ReadyStep(ss: SecretSync, s: Status, now: nat)
    requires Reportable(ss, s)
    ensures StatusStep(ss, WithReady(ss.status, s, now), now)
    ensures WithReady(ss.status, s, now).(conditions := []) == s
    ensures WithReady(ss.status, s, now).state == s.state
  {
  }

  /** On a quiet server: the held copy is current, and the cache lists the same stale Secrets as the truth. */
  predicate Prepared(w: World, k: Key, ss: Stored<SecretSync>) {
    && w.h != [] && w.secretAt < |w.h|
    && k in Now(w).syncs && Now(w).syncs[k] == ss
    && StaleKeys(Bare(w.h[w.secretAt].now.secrets), k, ss.obj.uid, TargetName(k, ss.obj))
       == StaleKeys(Bare(Now(w).secrets), k, ss.obj.uid, TargetName(k, ss.obj))
  }

  lemma Concluded(a: World, b: World, c: World, k: Key, ss: Stored<SecretSync>, s: Status, now: nat,
                  next: Stored<SecretSync>, interval: nat, who: Actor)
    requires Prepared(a, k, ss) && now == Now(a).clock
    requires next.obj == ss.obj.(status := WithReady(ss.obj.status, s, now))
    requires b == Commit(a, who, Now(a).(syncs := Now(a).syncs[k := next]))
    requires Untouched(k, a, b) && Onward(b, c) && c.h != []
    requires var stale := StaleKeys(Bare(b.h[b.secretAt].now.secrets), k, ss.obj.uid, TargetName(k, ss.obj));
             if s.state == InSync then Now(c) == Without(Now(b), stale) && (stale == {} ==> c == b) else c == b
    ensures var e := Plan.Conclude(ViewOf(Now(a)), k, ss.obj, s, interval, false);
            && ViewOf(Now(c)) == e.view && Some(WithReady(ss.obj.status, s, now)) == e.final
            && e.result == ResultFor(s, interval)
            && (!e.touched ==> Untouched(k, a, c))
  {
    hide WithReady, StaleKeys;
    BarePut(Now(a).syncs, k, next);
    var stale := StaleKeys(Bare(Now(a).secrets), k, ss.obj.uid, TargetName(k, ss.obj));
    BareCut(Now(a).secrets, stale);
    BareCut(Now(a).secrets, {});
    assert b.h[b.secretAt] == a.h[a.secretAt];
    WithoutMore(Now(b), {}, k);
  }

  lemma UntouchedReflexive(k: Key, w: World)
    ensures Untouched(k, w, w)
  {
  }

  lemma OnwardCache(a: World, b: World)
    requires Onward(a, b)
    ensures a.secretAt <= b.secretAt && |a.h| <= |b.h|
  {
  }

  lemma Lengthens(a: World, b: World, c: World)
    requires Onward(a, b) && |b.h| < |c.h|
    ensures |a.h| < |c.h|
  {
  }

  lemma OnwardSync(a: World, b: World)
    requires Onward(a, b)
    ensures a.syncAt <= b.syncAt
  {
  }

  lemma BareAt<T>(m: map<Key, Stored<T>>, k: Key)
    ensures k in Bare(m) <==> k in m
    ensures k in m ==> Bare(m)[k] == m[k].obj
  {
  }

  lemma BareDeparted(m: SyncMap, k: Key, i: nat)
    requires k in m
    ensures k in Bare(m) && Bare(WithoutFinalizer(m, k, i)) == Departed(Bare(m), k)
  {
  }

  lemma VisibleAgrees(secrets: SecretMap, target: Key)
    ensures Visible(secrets, target).Some? <==> VisibleBare(Bare(secrets), target).Some?
    ensures Visible(secrets, target).Some? ==>
              && VisibleBare(Bare(secrets), target) == Some(Visible(secrets, target).value.obj)
              && target in secrets && secrets[target] == Visible(secrets, target).value && Labelled(secrets[target].obj)
  {
  }
}
