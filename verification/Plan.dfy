/**
 One reconcile as a function: what it leaves behind when its caches are fresh and every call
 works. The controller's method is proved to do exactly this, and what the operator promises
 about drift, quiescence and competing claims is proved of it.
 */
module Plan {
  import opened Objects
  import opened History
  import opened Api
  import opened Writer
  import opened Engine
  import opened Arbitration

  datatype View = View(secrets: map<Key, Secret>, syncs: Claims, vault: VaultMap, clock: nat)

  datatype Result = Result(err: bool, requeue: nat)

  /** `touched` tells whether any Secret was created, updated or deleted. */
  datatype Effect = Effect(view: View, result: Result, final: Option<Status>, touched: bool)

  function ViewOf(s: Snapshot): View {
    View(Bare(s.secrets), Bare(s.syncs), s.vault, s.clock)
  }

  predicate RetriedWithBackoff(r: Reason) {
    r == TransientError || r == SecretWriteFailed || r == AuthenticationFailed
  }

  predicate IsTerminal(o: Outcome) {
    o == ErrTargetConflict || o == ErrTargetImmutable
  }

  function TerminalReason(o: Outcome): Reason {
    if o == ErrTargetImmutable then TargetImmutable else TargetConflict
  }

  function ReadLatest(v: View, ss: SecretSync): VaultRead {
    match Latest(v.vault, ss.source)
    case Some(x) => ReadOk(x)
    case None => ReadFailed(NotFound)
  }

  /** What the label-filtered Secret cache shows of a bare Secret, as `Visible` does of a stored one. */
  function VisibleBare(secrets: map<Key, Secret>, target: Key): Option<Secret> {
    if target in secrets && Labelled(secrets[target]) then Some(secrets[target]) else None
  }

  /** A Secret this SecretSync wrote under another target name. */
  predicate Stale(s: Key, secret: Secret, k: Key, uid: Uid, current: string) {
    s.ns == k.ns && Labelled(secret) && s.name != current && ControlledBy(secret, uid)
  }

  function StaleKeys(secrets: map<Key, Secret>, k: Key, uid: Uid, current: string): set<Key> {
    set s | s in secrets && Stale(s, secrets[s], k, uid, current)
  }

  function ResultFor(s: Status, interval: nat): (r: Result)
    ensures r.err <==> s.state == Failing && s.reason in {TransientError, SecretWriteFailed, AuthenticationFailed}
    ensures r.requeue == if r.err then 0 else interval
  {
    if s.state == Failing && RetriedWithBackoff(s.reason) then Result(true, 0) else Result(false, interval)
  }

  /** The terminal status write and everything after it. */
  function Conclude(v: View, k: Key, ss: SecretSync, s: Status, interval: nat, touched: bool): Effect {
    var full := WithReady(ss.status, s, v.clock);
    var reported := v.(syncs := v.syncs[k := ss.(status := full)]);
    var stale := if s.state == InSync then StaleKeys(v.secrets, k, ss.uid, TargetName(k, ss)) else {};
    Effect(reported.(secrets := reported.secrets - stale), ResultFor(s, interval), Some(full), touched || stale != {})
  }

  /** The target of an unblocked claim. */
  function SyncTarget(v: View, k: Key, ss: SecretSync, interval: nat): Effect {
    var target := TargetKey(k, ss);
    var existing := VisibleBare(v.secrets, target);
    var read := ReadLatest(v, ss);
    var verdict := Verdict(ss, existing, read, v.clock);
    if verdict.state == Failing || read.ReadFailed? then Conclude(v, k, ss, verdict, interval, false)
    else
      var guarded := ss.(finalizer := true);
      var want := IntentOf(ss, read.version.value, read.version.version);
      if UpToDate(ss, existing, read.version) then Conclude(v, k, guarded, verdict, interval, false)
      else
        var o := DirectWrite(v.secrets, target, want);
        if o.Nil? then
          var prior := if target in v.secrets then v.secrets[target] else BLANK;
          Conclude(v.(secrets := v.secrets[target := Rewrite(prior, want)]), k, guarded, verdict, interval, true)
        else Conclude(v, k, guarded, Failed(ss, TerminalReason(o)), interval, false)
  }

  function Departed(syncs: Claims, k: Key): Claims
    requires k in syncs
  {
    if syncs[k].otherFinalizers == {} then syncs - {k} else syncs[k := syncs[k].(finalizer := false)]
  }

  function Deleted(v: View, k: Key, ss: SecretSync): Effect
    requires k in v.syncs
  {
    if !ss.finalizer then Effect(v, Result(false, 0), None, false)
    else
      var target := TargetKey(k, ss);
      var existing := VisibleBare(v.secrets, target);
      var owned := existing.Some? && ControlledBy(existing.value, ss.uid);
      var secrets := if owned then v.secrets - {target} else v.secrets;
      Effect(v.(secrets := secrets, syncs := Departed(v.syncs, k)), Result(false, 0), None, owned)
  }

  /** The very first status write. */
  function Announced(ss: SecretSync, clock: nat): SecretSync {
    if ss.status.state == Unset
    then ss.(status := WithReady(ss.status, ss.status.(state := Pending), clock))
    else ss
  }

  function Reconciled(v: View, k: Key, interval: nat): Effect {
    if k !in v.syncs then Effect(v, Result(false, 0), None, false)
    else if v.syncs[k].deleting then Deleted(v, k, v.syncs[k])
    else
      var ss := Announced(v.syncs[k], v.clock);
      if Blocked(v.syncs, k, ss) then Conclude(v, k, ss, Failed(ss, TargetConflict), interval, false)
      else SyncTarget(v, k, ss, interval)
  }

  // ----- What an unblocked claim achieves -----

  predicate Healthy(v: View, k: Key) {
    && k in v.syncs
    && !v.syncs[k].deleting
    && Latest(v.vault, v.syncs[k].source).Some?
  }

  function Wanted(v: View, k: Key): Intent
    requires Healthy(v, k)
  {
    var x := Latest(v.vault, v.syncs[k].source).value;
    IntentOf(v.syncs[k], x.value, x.version)
  }

  /** The occupant of the target does not stand in the way. */
  predicate Yields(v: View, k: Key)
    requires Healthy(v, k)
  {
    var target := TargetKey(k, v.syncs[k]);
    target in v.secrets ==>
      && Writable(v.secrets[target], v.syncs[k].uid)
      && !Foreign(v.secrets[target], v.syncs[k].uid)
      && !ImmutableBlocks(v.secrets[target], Wanted(v, k).dataKey, Wanted(v, k).value)
  }

  /** What stands in the way is only that the occupant, ours to write, is frozen with other data. */
  predicate FrozenAgainst(v: View, k: Key)
    requires Healthy(v, k)
  {
    var target := TargetKey(k, v.syncs[k]);
    && target in v.secrets
    && Writable(v.secrets[target], v.syncs[k].uid)
    && !Foreign(v.secrets[target], v.syncs[k].uid)
    && ImmutableBlocks(v.secrets[target], Wanted(v, k).dataKey, Wanted(v, k).value)
  }

  predicate HoldsWanted(v: View, secrets: map<Key, Secret>, k: Key)
    requires Healthy(v, k)
  {
    var target := TargetKey(k, v.syncs[k]);
    target in secrets && Exact(secrets[target], Wanted(v, k))
  }

  lemma BlockedIgnoresStatus(claims: Claims, k: Key, ss: SecretSync, tt: SecretSync)
    requires ss.created == tt.created && ss.secretName == tt.secretName
    ensures Blocked(claims, k, ss) == Blocked(claims, k, tt)
  {
    forall o | o in claims ensures Rival(claims, k, ss, o) == Rival(claims, k, tt, o) {}
  }

  lemma BlockedIgnoresSelf(claims: Claims, k: Key, ss: SecretSync, tt: SecretSync)
    ensures Blocked(claims[k := tt], k, ss) == Blocked(claims, k, ss)
  {
    var changed := claims[k := tt];
    if Blocked(claims, k, ss) {
      var o :| o in claims && Rival(claims, k, ss, o);
      assert Rival(changed, k, ss, o);
    }
    if Blocked(changed, k, ss) {
      var o :| o in changed && Rival(changed, k, ss, o);
      assert Rival(claims, k, ss, o);
    }
  }

  lemma UnblockedReconcile(v: View, k: Key, interval: nat)
    requires Healthy(v, k) && Unblocked(v.syncs, k)
    ensures Reconciled(v, k, interval) == SyncTarget(v, k, Announced(v.syncs[k], v.clock), interval)
  {
    BlockedIgnoresStatus(v.syncs, k, v.syncs[k], Announced(v.syncs[k], v.clock));
  }

  /** Only the status and the finalizer of `k` differ. */
  predicate OnlyReported(a: Claims, b: Claims, k: Key) {
    && k in a && k in b
    && b == a[k := b[k]]
    && b[k].(status := a[k].status, finalizer := a[k].finalizer) == a[k]
  }

  /** The target holds what is wanted, the sweep is done, nothing else has changed. */
  predicate Achieved(v: View, k: Key, e: Effect)
    requires Healthy(v, k)
  {
    var target := TargetKey(k, v.syncs[k]);
    && OnlyReported(v.syncs, e.view.syncs, k)
    && e.view.vault == v.vault && e.view.clock == v.clock
    && e.final == Some(e.view.syncs[k].status)
    && e.view.syncs[k].status.state == InSync
    && e.view.syncs[k].status.syncedVersion == Wanted(v, k).version
    && e.view.syncs[k].finalizer
    && HoldsWanted(v, e.view.secrets, k)
    && e.view.secrets[target].immutable == (if target in v.secrets then v.secrets[target].immutable else None)
    && StaleKeys(e.view.secrets, k, v.syncs[k].uid, target.name) == {}
    && (forall s | s in e.view.secrets && s != target :: s in v.secrets && e.view.secrets[s] == v.secrets[s])
    && (forall s | s in v.secrets && !Stale(s, v.secrets[s], k, v.syncs[k].uid, target.name) :: s in e.view.secrets)
  }

  /** The claim is refused and every Secret is left alone. */
  predicate TurnedAway(v: View, k: Key, e: Effect) {
    && OnlyReported(v.syncs, e.view.syncs, k)
    && e.view == v.(syncs := e.view.syncs)
    && e.final == Some(e.view.syncs[k].status)
    && e.view.syncs[k].status.state == Failing
    && e.view.syncs[k].status.reason in {TargetConflict, TargetImmutable}
    && !e.touched
  }

  /** Concluding InSync over secrets that differ from those of `v` only at the target. */
  lemma ConcludeInSync(v: View, k: Key, ss: SecretSync, secrets: map<Key, Secret>, s: Status, interval: nat,
                       touched: bool)
    requires Healthy(v, k)
    requires ss.(status := v.syncs[k].status, finalizer := v.syncs[k].finalizer) == v.syncs[k] && ss.finalizer
    requires s.state == InSync && s.syncedVersion == Wanted(v, k).version
    requires HoldsWanted(v, secrets, k)
    requires var target := TargetKey(k, v.syncs[k]);
             && secrets == v.secrets[target := secrets[target]]
             && secrets[target].immutable == (if target in v.secrets then v.secrets[target].immutable else None)
    ensures Achieved(v, k, Conclude(v.(secrets := secrets), k, ss, s, interval, touched))
    ensures Conclude(v.(secrets := secrets), k, ss, s, interval, touched).result == Result(false, interval)
  {
    hide Exact, Labelled, ControlledBy, IntentOf, Latest;
    var target := TargetKey(k, v.syncs[k]);
    var e := Conclude(v.(secrets := secrets), k, ss, s, interval, touched);
    assert e.view.syncs == v.syncs[k := e.view.syncs[k]];
    assert target !in StaleKeys(secrets, k, ss.uid, target.name);
    assert e.view.secrets == secrets - StaleKeys(secrets, k, ss.uid, target.name);
    assert StaleKeys(e.view.secrets, k, ss.uid, target.name) == {};
  }

  lemma SyncYields(v: View, k: Key, ss: SecretSync, interval: nat)
    requires Healthy(v, k) && ss == Announced(v.syncs[k], v.clock)
    requires Yields(v, k)
    ensures Achieved(v, k, SyncTarget(v, k, ss, interval))
    ensures SyncTarget(v, k, ss, interval).result == Result(false, interval)
  {
    hide Achieved, Conclude, WithReady, Exact, ControllerOf, Latest, DataMatches, StaleKeys;
    var target := TargetKey(k, ss);
    var existing := VisibleBare(v.secrets, target);
    var x := Latest(v.vault, ss.source).value;
    var want := Wanted(v, k);
    var guarded := ss.(finalizer := true);
    var verdict := Verdict(ss, existing, ReadOk(x), v.clock);
    if UpToDate(ss, existing, x) {
      UpToDateIsExact(ss, existing, x);
      assert v.secrets[target := v.secrets[target]] == v.secrets;
      ConcludeInSync(v, k, guarded, v.secrets, verdict, interval, false);
      assert v.(secrets := v.secrets) == v;
    } else {
      var prior := if target in v.secrets then v.secrets[target] else BLANK;
      assert !Foreign(prior, ss.uid) by { BlankUnowned(ss.uid); }
      RewriteExact(prior, want);
      hide Rewrite;
      ConcludeInSync(v, k, guarded, v.secrets[target := Rewrite(prior, want)], verdict, interval, true);
    }
  }

  lemma BlankUnowned(uid: Uid)
    ensures !Foreign(BLANK, uid)
  {
  }

  lemma SyncResists(v: View, k: Key, ss: SecretSync, interval: nat)
    requires Healthy(v, k) && ss == Announced(v.syncs[k], v.clock)
    requires !Yields(v, k)
    ensures TurnedAway(v, k, SyncTarget(v, k, ss, interval))
    ensures SyncTarget(v, k, ss, interval).result == Result(false, interval)
    ensures SyncTarget(v, k, ss, interval).view.syncs[k].status.reason ==
            if FrozenAgainst(v, k) then TargetImmutable else TargetConflict
    ensures Defeated(SyncTarget(v, k, ss, interval).view.syncs[k].status) <==> !FrozenAgainst(v, k)
  {
    hide TurnedAway, Conclude, WithReady, ControllerOf, Latest, DataMatches, StaleKeys;
    var target := TargetKey(k, ss);
    var existing := VisibleBare(v.secrets, target);
    var x := Latest(v.vault, ss.source).value;
    assert !UpToDate(ss, existing, x);
    ConcludeFailed(v, k, ss, ss, TargetConflict, interval);
    ConcludeFailed(v, k, ss, ss.(finalizer := true), TargetConflict, interval);
    ConcludeFailed(v, k, ss, ss.(finalizer := true), TargetImmutable, interval);
  }

  /** With fresh caches a foreign Secret is always reported as a conflict: the engine looks at its owner first. */
  lemma ForeignIsConflict(v: View, k: Key, interval: nat)
    requires Healthy(v, k)
    requires var target := TargetKey(k, v.syncs[k]);
             target in v.secrets && Foreign(v.secrets[target], v.syncs[k].uid)
    ensures var ss := Announced(v.syncs[k], v.clock);
            SyncTarget(v, k, ss, interval).view.syncs[k].status.reason == TargetConflict
  {
    hide SyncTarget, Announced, ControllerOf, Latest;
    SyncResists(v, k, Announced(v.syncs[k], v.clock), interval);
  }

  /** Concluding with a terminal failure changes nothing but the status and perhaps the finalizer. */
  lemma ConcludeFailed(v: View, k: Key, ss: SecretSync, tt: SecretSync, reason: Reason, interval: nat)
    requires k in v.syncs && reason in {TargetConflict, TargetImmutable}
    requires ss.(status := v.syncs[k].status) == v.syncs[k]
    requires tt == ss || tt == ss.(finalizer := true)
    ensures var e := Conclude(v, k, tt, Failed(ss, reason), interval, false);
            && TurnedAway(v, k, e)
            && e.result == Result(false, interval)
            && e.view.syncs[k].status.reason == reason
            && e.view.syncs[k].status.state == Failing
  {
    WithReadyKeeps(ss.status, Failed(ss, reason), v.clock);
    var e := Conclude(v, k, tt, Failed(ss, reason), interval, false);
    assert v.secrets - {} == v.secrets;
    assert e.view.syncs == v.syncs[k := e.view.syncs[k]];
  }

  lemma WithReadyKeeps(before: Status, s: Status, now: nat)
    ensures WithReady(before, s, now).(conditions := s.conditions) == s
  {
  }
}
