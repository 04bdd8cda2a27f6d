/**
 The cluster as the operator meets it: a history of snapshots that only grows. Every entry
 names who produced it. A resourceVersion is the index of the entry that stored the object,
 and an informer cache is a position in the history that only moves forward.

 The predicates here are what the API server and the other actors are trusted to keep
 (`EnvStep`, `Anchors`, `Identity`) and what every step of the operator must satisfy
 (`WriteLegal`, `DeleteLegal`, `StatusLegal`, `AddLegal`, `RemoveLegal`).
 */
module History {
  import opened Objects

  type SecretMap = map<Key, Stored<Secret>>
  type SyncMap = map<Key, Stored<SecretSync>>
  type VaultMap = map<VaultRef, seq<VaultVersion>>

  datatype Snapshot = Snapshot(secrets: SecretMap, syncs: SyncMap, vault: VaultMap, clock: nat)

  /**
   Why a target is in sync: at `at` it held what `want` says, on the strength of the vault read at
   `seen`. The reconcile had looked at the target when the Secret cache showed entry `looked`, and
   the sync time is what the clock said at `stamped`.
   */
  datatype Proof = Proof(at: nat, want: Intent, seen: nat, looked: nat, stamped: nat)

  // `copy` is the entry the acting SecretSync was read from, `seen` the one current at the
  // vault read or, for a deletion, the one the Secret was read from.
  datatype Step =
    | WriteSecret(target: Key, want: Intent, copy: nat, seen: nat)
    | DeleteSecret(target: Key, seen: nat)
    | PutStatus(now: nat, proof: Option<Proof>)
    | AddFinalizer
    | RemoveFinalizer

  datatype Actor = Env | Op(sync: Key, uid: Uid, step: Step)

  datatype Entry = Entry(who: Actor, now: Snapshot)

  datatype World = World(h: seq<Entry>, secretAt: nat, syncAt: nat)

  predicate OwnEntry(e: Entry, k: Key) {
    e.who.Op? && e.who.sync == k
  }

  predicate OwnWrite(e: Entry, k: Key) {
    OwnEntry(e, k) && e.who.step.WriteSecret?
  }

  predicate TouchesSecrets(e: Entry) {
    e.who.Op? && (e.who.step.WriteSecret? || e.who.step.DeleteSecret?)
  }

  // ----- The vault -----

  function Latest(vault: VaultMap, source: VaultRef): (r: Option<VaultVersion>)
    ensures r.Some? ==> FoldRef(source) in vault && vault[FoldRef(source)] != []
  {
    var f := FoldRef(source);
    if f in vault && vault[f] != [] then Some(vault[f][|vault[f]| - 1]) else None
  }

  predicate VaultGrows(a: VaultMap, b: VaultMap) {
    forall r | r in a :: r in b && a[r] <= b[r]
  }

  // ----- The status subresource -----

  function ReadyCondition(s: Status): Condition {
    match s.state
    case InSync => Condition(Ready, True, Synced, s.observedGeneration, 0)
    case Failing =>
      Condition(Ready, False, if s.reason == NoReason then Unexplained else Because(s.reason), s.observedGeneration, 0)
    case _ => Condition(Ready, Unknown, NotYet, s.observedGeneration, 0)
  }

  /** The library call SetStatusCondition: the transition time moves only when the truth value does. */
  function SetCondition(cs: seq<Condition>, c: Condition, now: nat): seq<Condition> {
    if cs == [] then [c.(since := now)]
    else if cs[0].conditionType == c.conditionType then
      [c.(since := if cs[0].truth == c.truth then cs[0].since else now)] + cs[1..]
    else [cs[0]] + SetCondition(cs[1..], c, now)
  }

  /** setReadyCondition: the fresh status with the previous conditions carried over and Ready updated. */
  function WithReady(before: Status, s: Status, now: nat): Status {
    s.(conditions := SetCondition(before.conditions, ReadyCondition(s), now))
  }

  /** What a status write may turn the status of `ss` into. */
  predicate StatusStep(ss: SecretSync, s: Status, now: nat) {
    && s == WithReady(ss.status, s, now)
    && match s.state
       case Unset => false
       case Pending => ss.status.state == Unset && s == ss.status.(state := Pending, conditions := s.conditions)
       case InSync => s.reason == NoReason && s.lastSync.Some? && s.observedGeneration == ss.generation
       case Failing =>
         && s.reason != NoReason
         && s.lastSync == ss.status.lastSync
         && s.syncedVersion == ss.status.syncedVersion
         && s.observedGeneration == ss.generation
  }

  // ----- Legal steps -----

  /** Free, or ours to write: labelled or controlled by `uid`, and controlled by nobody else. */
  predicate OpenTo(secrets: SecretMap, target: Key, uid: Uid) {
    target in secrets ==> Writable(secrets[target].obj, uid) && !Foreign(secrets[target].obj, uid)
  }

  function Prior(secrets: SecretMap, target: Key): Secret {
    if target in secrets then secrets[target].obj else BLANK
  }

  predicate SyncIs(syncs: SyncMap, k: Key, uid: Uid) {
    k in syncs && syncs[k].obj.uid == uid
  }

  predicate Guarded(now: Snapshot, k: Key, uid: Uid) {
    SyncIs(now.syncs, k, uid) && now.syncs[k].obj.finalizer
  }

  /** `want` is what the copy of the SecretSync and the vault at that instant ask for. */
  predicate Grounded(h: seq<Entry>, k: Key, want: Intent, ss: SecretSync, seen: nat)
    requires seen < |h|
  {
    var v := Latest(h[seen].now.vault, ss.source);
    v.Some? && want == IntentOf(ss, v.value.value, v.value.version)
  }

  predicate WriteLegal(h: seq<Entry>, i: nat, k: Key, uid: Uid, target: Key, want: Intent, copy: nat, seen: nat)
    requires 0 < i < |h|
  {
    var a, b := h[i - 1].now, h[i].now;
    && b == a.(secrets := a.secrets[target := Stored(Rewrite(Prior(a.secrets, target), want), i)])
    && OpenTo(a.secrets, target, uid)
    && (target in a.secrets ==> !ImmutableBlocks(a.secrets[target].obj, want.dataKey, want.value))
    && Guarded(a, k, uid)
    && copy < i && SyncIs(h[copy].now.syncs, k, uid)
    && !h[copy].now.syncs[k].obj.deleting
    && target == TargetKey(k, h[copy].now.syncs[k].obj)
    && seen < i && Grounded(h, k, want, h[copy].now.syncs[k].obj, seen)
    && forall j | seen < j < i :: !OwnWrite(h[j], k)
  }

  predicate DeleteLegal(h: seq<Entry>, i: nat, uid: Uid, target: Key, seen: nat)
    requires 0 < i < |h|
  {
    var a, b := h[i - 1].now, h[i].now;
    && b == a.(secrets := a.secrets - {target})
    && seen < i && target in h[seen].now.secrets
    && Labelled(h[seen].now.secrets[target].obj)
    && ControlledBy(h[seen].now.secrets[target].obj, uid)
  }

  /** A report with evidence. */
  predicate Evident(e: Entry, k: Key) {
    OwnEntry(e, k) && e.who.step.PutStatus? && e.who.step.proof.Some?
  }

  /**
   The evidence is this reconcile's own: either the write it made after its vault read, or the
   snapshot of the target it had looked at. From the vault read to entry `i` it did nothing besides
   that write and ensuring the finalizer, and no earlier report looked at anything later.
   */
  predicate ProofHolds(h: seq<Entry>, i: nat, k: Key, ss: SecretSync, s: Status, p: Proof)
    requires i <= |h|
  {
    && p.at < i && TargetKey(k, ss) in h[p.at].now.secrets
    && Exact(h[p.at].now.secrets[TargetKey(k, ss)].obj, p.want)
    && p.seen < i && Grounded(h, k, p.want, ss, p.seen)
    && s.syncedVersion == p.want.version
    && p.seen <= p.stamped < i && s.lastSync == Some(h[p.stamped].now.clock)
    && (p.at == p.looked || WroteIt(h, k, ss, p))
    && LooksOn(h, i, k, p.looked)
    && forall j | p.seen < j < i && OwnEntry(h[j], k) :: h[j].who.step.AddFinalizer? || (j == p.at
        && WroteIt(h, k, ss, p))
  }

  /** No earlier report of `k` had looked at a later snapshot. */
  predicate LooksOn(h: seq<Entry>, i: nat, k: Key, looked: nat)
    requires i <= |h|
  {
    forall j | 0 <= j < i && Evident(h[j], k) :: h[j].who.step.proof.value.looked <= looked
  }

  /** The clock was read at some entry after which nothing was done on behalf of `k`. */
  predicate ClockRead(h: seq<Entry>, i: nat, k: Key, now: nat)
    requires i <= |h|
  {
    exists c | 0 <= c < i :: h[c].now.clock == now && IdleSince(h, c, i, k)
  }

  predicate IdleSince(h: seq<Entry>, c: nat, i: nat, k: Key)
    requires i <= |h|
  {
    forall j | c < j < i :: !OwnEntry(h[j], k)
  }

  /** The evidence is the write of this very intent, made after the vault read. */
  predicate WroteIt(h: seq<Entry>, k: Key, ss: SecretSync, p: Proof)
    requires p.at < |h|
  {
    && p.seen < p.at && OwnWrite(h[p.at], k)
    && h[p.at].who.step.want == p.want && h[p.at].who.step.target == TargetKey(k, ss)
  }

  predicate StatusLegal(h: seq<Entry>, i: nat, k: Key, uid: Uid, now: nat, proof: Option<Proof>)
    requires 0 < i < |h|
  {
    var a, b := h[i - 1].now, h[i].now;
    && SyncIs(a.syncs, k, uid) && k in b.syncs
    && var s := b.syncs[k].obj.status;
    && b == a.(syncs := a.syncs[k := Stored(a.syncs[k].obj.(status := s), i)])
    && StatusStep(a.syncs[k].obj, s, now)
    && ClockRead(h, i, k, now)
    && if s.state == InSync then proof.Some? && ProofHolds(h, i, k, a.syncs[k].obj, s, proof.value) else proof.None?
  }

  predicate AddLegal(a: Snapshot, b: Snapshot, i: nat, k: Key, uid: Uid) {
    && SyncIs(a.syncs, k, uid) && !a.syncs[k].obj.deleting
    && b == a.(syncs := a.syncs[k := Stored(a.syncs[k].obj.(finalizer := true), i)])
  }

  function WithoutFinalizer(syncs: SyncMap, k: Key, i: nat): SyncMap
    requires k in syncs
  {
    if syncs[k].obj.otherFinalizers == {} then syncs - {k}
    else syncs[k := Stored(syncs[k].obj.(finalizer := false), i)]
  }

  predicate RemoveLegal(a: Snapshot, b: Snapshot, i: nat, k: Key, uid: Uid) {
    && SyncIs(a.syncs, k, uid) && a.syncs[k].obj.deleting
    && b == a.(syncs := WithoutFinalizer(a.syncs, k, i))
  }

  /** What everybody else does to SecretSyncs: their finalizer and their status are the operator's. */
  predicate SyncsKept(a: SyncMap, b: SyncMap) {
    && (forall k | k in a && a[k].obj.finalizer :: SyncIs(b, k, a[k].obj.uid))
    && (forall k | k in b ::
          if SyncIs(a, k, b[k].obj.uid)
          then b[k].obj.status == a[k].obj.status && b[k].obj.finalizer == a[k].obj.finalizer
          else b[k].obj.status == EMPTY_STATUS && !b[k].obj.finalizer)
  }

  predicate EnvStep(a: Snapshot, b: Snapshot) {
    SyncsKept(a.syncs, b.syncs) && VaultGrows(a.vault, b.vault) && a.clock <= b.clock
  }

  predicate StepLegal(h: seq<Entry>, i: nat)
    requires 0 < i < |h|
  {
    match h[i].who
    case Env => EnvStep(h[i - 1].now, h[i].now)
    case Op(k, uid, WriteSecret(target, want, copy, seen)) => WriteLegal(h, i, k, uid, target, want, copy, seen)
    case Op(k, uid, DeleteSecret(target, seen)) => DeleteLegal(h, i, uid, target, seen)
    case Op(k, uid, PutStatus(now, proof)) => StatusLegal(h, i, k, uid, now, proof)
    case Op(k, uid, AddFinalizer) => AddLegal(h[i - 1].now, h[i].now, i, k, uid)
    case Op(k, uid, RemoveFinalizer) => RemoveLegal(h[i - 1].now, h[i].now, i, k, uid)
  }

  // ----- Invariants -----

  /** One resourceVersion means one content: every stored object is the one its version's entry stored. */
  predicate SecretAnchored(h: seq<Entry>, i: nat, k: Key)
    requires i < |h| && k in h[i].now.secrets
  {
    var s := h[i].now.secrets[k];
    s.rv <= i && k in h[s.rv].now.secrets && h[s.rv].now.secrets[k] == s
  }

  predicate SyncAnchored(h: seq<Entry>, i: nat, k: Key)
    requires i < |h| && k in h[i].now.syncs
  {
    var s := h[i].now.syncs[k];
    s.rv <= i && k in h[s.rv].now.syncs && h[s.rv].now.syncs[k] == s
  }

  predicate Anchors(h: seq<Entry>) {
    && (forall i, k {:trigger SecretAnchored(h, i, k)} | 0 <= i < |h|
        && k in h[i].now.secrets :: SecretAnchored(h, i, k))
    && (forall i, k {:trigger SyncAnchored(h, i, k)} | 0 <= i < |h| && k in h[i].now.syncs :: SyncAnchored(h, i, k))
  }

  /** A uid names one object for ever, and a deletion mark is never taken back. */
  predicate SameObject(a: SecretSync, b: SecretSync) {
    a.uid == b.uid ==> a.created == b.created && (a.deleting ==> b.deleting)
  }

  predicate Identity(h: seq<Entry>) {
    forall i, j, k | 0 <= i <= j < |h| && k in h[i].now.syncs && k in h[j].now.syncs ::
      SameObject(h[i].now.syncs[k].obj, h[j].now.syncs[k].obj)
  }

  predicate Lawful(h: seq<Entry>) {
    forall i | 0 < i < |h| :: StepLegal(h, i)
  }

  /** Every history the operator and its environment can produce, from a first snapshot on. */
  predicate ValidHistory(h: seq<Entry>) {
    h != [] && h[0].who == Env && Anchors(h) && Identity(h) && Lawful(h)
  }

  predicate Marked(now: Snapshot, k: Key, uid: Uid) {
    SyncIs(now.syncs, k, uid) && now.syncs[k].obj.deleting
  }

  /** The SecretSync cache has already shown the deletion mark of every uid whose finalizer was removed. */
  predicate RemovalSeen(w: World) {
    forall i | 0 <= i < |w.h| && w.h[i].who.Op? && w.h[i].who.step.RemoveFinalizer? ::
      exists c | 0 <= c <= w.syncAt && c < |w.h| ::
        Marked(w.h[c].now, w.h[i].who.sync, w.h[i].who.uid)
  }

  /** The Secret cache has already shown whatever a report had looked at. */
  predicate LooksShown(w: World) {
    forall i | 0 <= i < |w.h| && w.h[i].who.Op? && w.h[i].who.step.PutStatus? && w.h[i].who.step.proof.Some? ::
      w.h[i].who.step.proof.value.looked <= w.secretAt
  }

  predicate Inv(w: World) {
    ValidHistory(w.h) && w.secretAt < |w.h| && w.syncAt < |w.h| && RemovalSeen(w) && LooksShown(w)
  }

  /** A run can start from any cluster, caches filled: what is held at the start has version 0. */
  lemma AnyStart(now: Snapshot)
    requires forall k | k in now.secrets :: now.secrets[k].rv == 0
    requires forall k | k in now.syncs :: now.syncs[k].rv == 0
    ensures Inv(World([Entry(Env, now)], 0, 0))
  {
    var h := [Entry(Env, now)];
    assert forall k | k in now.secrets :: SecretAnchored(h, 0, k);
    assert forall k | k in now.syncs :: SyncAnchored(h, 0, k);
  }

  function Now(w: World): Snapshot
    requires w.h != []
  {
    w.h[|w.h| - 1].now
  }

  /** Anything can have happened from `a` to `b`, except steps taken on behalf of SecretSync `k`. */
  predicate Later(k: Key, a: World, b: World) {
    && a.h <= b.h
    && a.secretAt <= b.secretAt
    && a.syncAt <= b.syncAt
    && forall i | |a.h| <= i < |b.h| :: !OwnEntry(b.h[i], k)
  }

  lemma StepLegalPrefix(h: seq<Entry>, g: seq<Entry>, i: nat)
    requires h <= g && 0 < i < |h|
    ensures StepLegal(h, i) == StepLegal(g, i)
  {
    hide Rewrite, Exact, StatusStep, ImmutableBlocks, OpenTo, IntentOf, EnvStep, Latest, TargetKey, ProofHolds,
         ClockRead;
    forall j | 0 <= j < |h| ensures h[j] == g[j] {}
    assert h[i] == g[i] && h[i - 1] == g[i - 1];
    if h[i].who.Op? && h[i].who.step.PutStatus? {
      ClockReadPrefix(h, g, i, h[i].who.sync, h[i].who.step.now);
      StatusLegalPrefix(h, g, i, h[i].who.sync, h[i].who.uid, h[i].who.step.now, h[i].who.step.proof);
    }
  }

  lemma StatusLegalPrefix(h: seq<Entry>, g: seq<Entry>, i: nat, k: Key, uid: Uid, now: nat, proof: Option<Proof>)
    requires h <= g && 0 < i < |h| && ClockRead(h, i, k, now) == ClockRead(g, i, k, now)
    ensures StatusLegal(h, i, k, uid, now, proof) == StatusLegal(g, i, k, uid, now, proof)
  {
    hide StatusStep, ProofHolds, ClockRead;
    assert h[i] == g[i] && h[i - 1] == g[i - 1];
    if k in h[i].now.syncs && k in h[i - 1].now.syncs && proof.Some? {
      ProofPrefix(h, g, i, k, h[i - 1].now.syncs[k].obj, h[i].now.syncs[k].obj.status, h[i].now.syncs[k].obj.status,
          proof.value);
    }
  }

  lemma ClockReadPrefix(h: seq<Entry>, g: seq<Entry>, i: nat, k: Key, now: nat)
    requires h <= g && i <= |h|
    ensures ClockRead(h, i, k, now) == ClockRead(g, i, k, now)
  {
    forall c | 0 <= c < i ensures h[c] == g[c] && IdleSince(h, c, i, k) == IdleSince(g, c, i, k) {
      IdlePrefix(h, g, c, i, k);
    }
    if ClockRead(h, i, k, now) {
      var c :| 0 <= c < i && h[c].now.clock == now && IdleSince(h, c, i, k);
      assert g[c].now.clock == now && IdleSince(g, c, i, k);
    }
    if ClockRead(g, i, k, now) {
      var c :| 0 <= c < i && g[c].now.clock == now && IdleSince(g, c, i, k);
      assert h[c].now.clock == now && IdleSince(h, c, i, k);
    }
  }

  lemma IdlePrefix(h: seq<Entry>, g: seq<Entry>, c: nat, i: nat, k: Key)
    requires h <= g && i <= |h|
    ensures IdleSince(h, c, i, k) == IdleSince(g, c, i, k)
  {
    forall j | 0 <= j < |h| ensures h[j] == g[j] {}
  }

  /** A clock reading stays one as long as nothing is done on behalf of `k`. */
  lemma ClockReadLater(k: Key, a: World, b: World, now: nat)
    requires ClockRead(a.h, |a.h|, k, now) && Later(k, a, b)
    ensures ClockRead(b.h, |b.h|, k, now)
  {
    hide IdleSince;
    var c :| 0 <= c < |a.h| && a.h[c].now.clock == now && IdleSince(a.h, c, |a.h|, k);
    assert b.h[c] == a.h[c];
    assert IdleSince(b.h, c, |b.h|, k) by { StaysIdle(k, a, b, c); }
  }

  lemma StaysIdle(k: Key, a: World, b: World, c: nat)
    requires IdleSince(a.h, c, |a.h|, k) && Later(k, a, b)
    ensures IdleSince(b.h, c, |b.h|, k)
  {
    forall j | c < j < |b.h| ensures !OwnEntry(b.h[j], k) {
      if j < |a.h| { assert b.h[j] == a.h[j]; }
    }
  }

  lemma ReadNow(w: World, k: Key)
    requires w.h != []
    ensures ClockRead(w.h, |w.h|, k, Now(w).clock)
  {
    var c := |w.h| - 1;
    assert w.h[c].now.clock == Now(w).clock && IdleSince(w.h, c, |w.h|, k);
  }

  /** A step that keeps the identity of SecretSyncs and stores under the next version extends a valid history. */
  lemma Extend(w: World, e: Entry)
    requires Inv(w)
    requires StepLegal(w.h + [e], |w.h|)
    requires e.who.Op? && !e.who.step.RemoveFinalizer?
    requires e.who.step.PutStatus? && e.who.step.proof.Some? ==> e.who.step.proof.value.looked <= w.secretAt
    ensures Inv(w.(h := w.h + [e]))
  {
    hide ValidHistory, StepLegal;
    ExtendHistory(w.h, e);
    var g := w.h + [e];
    forall i | 0 <= i < |g| && g[i].who.Op? && g[i].who.step.RemoveFinalizer?
      ensures exists c | 0 <= c <= w.syncAt && c < |g| ::
                Marked(g[c].now, g[i].who.sync, g[i].who.uid)
    {
      assert w.h[i] == g[i];
      var c :| 0 <= c <= w.syncAt && c < |w.h| && Marked(w.h[c].now, w.h[i].who.sync, w.h[i].who.uid);
      assert g[c] == w.h[c];
    }
  }

  lemma ExtendRemoval(w: World, e: Entry, c: nat)
    requires Inv(w)
    requires StepLegal(w.h + [e], |w.h|)
    requires e.who.Op? && e.who.step.RemoveFinalizer?
    requires c <= w.syncAt && c < |w.h| && Marked(w.h[c].now, e.who.sync, e.who.uid)
    ensures Inv(w.(h := w.h + [e]))
  {
    hide ValidHistory, StepLegal;
    ExtendHistory(w.h, e);
    var g := w.h + [e];
    forall i | 0 <= i < |g| && g[i].who.Op? && g[i].who.step.RemoveFinalizer?
      ensures exists c | 0 <= c <= w.syncAt && c < |g| ::
                Marked(g[c].now, g[i].who.sync, g[i].who.uid)
    {
      if i == |w.h| {
        assert g[c] == w.h[c];
      } else {
        assert w.h[i] == g[i];
        var d :| 0 <= d <= w.syncAt && d < |w.h| && Marked(w.h[d].now, w.h[i].who.sync, w.h[i].who.uid);
        assert g[d] == w.h[d];
      }
    }
  }

  lemma ExtendHistory(h: seq<Entry>, e: Entry)
    requires ValidHistory(h)
    requires StepLegal(h + [e], |h|)
    requires e.who.Op?
    ensures ValidHistory(h + [e])
  {
    hide StepLegal, Anchors, Identity;
    var g := h + [e];
    forall i | 0 < i < |g| ensures StepLegal(g, i) {
      if i < |h| { StepLegalPrefix(h, g, i); }
    }
    ExtendAnchors(h, e);
    ExtendIdentity(h, e);
  }

  /** What one legal step of the operator can do to the stored objects. */
  lemma OpEffect(h: seq<Entry>, i: nat)
    requires 0 < i < |h| && h[i].who.Op? && StepLegal(h, i)
    ensures h[i].now.vault == h[i - 1].now.vault && h[i].now.clock == h[i - 1].now.clock
    ensures forall k | k in h[i].now.secrets ::
              h[i].now.secrets[k].rv == i || (k in h[i - 1].now.secrets
                  && h[i].now.secrets[k] == h[i - 1].now.secrets[k])
    ensures forall k | k in h[i].now.syncs ::
              && k in h[i - 1].now.syncs
              && (h[i].now.syncs[k].rv == i || h[i].now.syncs[k] == h[i - 1].now.syncs[k])
              && h[i].now.syncs[k].obj.uid == h[i - 1].now.syncs[k].obj.uid
              && h[i].now.syncs[k].obj.created == h[i - 1].now.syncs[k].obj.created
              && h[i].now.syncs[k].obj.deleting == h[i - 1].now.syncs[k].obj.deleting
              && (k != h[i].who.sync ==> h[i].now.syncs[k] == h[i - 1].now.syncs[k])
    ensures forall k | k in h[i - 1].now.syncs && k != h[i].who.sync :: k in h[i].now.syncs
  {
  }

  lemma SecretAnchoredHere(h: seq<Entry>, i: nat, k: Key)
    requires i < |h| && k in h[i].now.secrets && h[i].now.secrets[k].rv == i
    ensures SecretAnchored(h, i, k)
  {
  }

  lemma SyncAnchoredHere(h: seq<Entry>, i: nat, k: Key)
    requires i < |h| && k in h[i].now.syncs && h[i].now.syncs[k].rv == i
    ensures SyncAnchored(h, i, k)
  {
  }

  lemma SecretAnchoredOn(h: seq<Entry>, g: seq<Entry>, i: nat, j: nat, k: Key)
    requires h <= g && i < |h| && k in h[i].now.secrets && SecretAnchored(h, i, k)
    requires i <= j < |g| && k in g[j].now.secrets && g[j].now.secrets[k] == h[i].now.secrets[k]
    ensures SecretAnchored(g, j, k)
  {
    assert g[h[i].now.secrets[k].rv] == h[h[i].now.secrets[k].rv];
  }

  lemma SyncAnchoredOn(h: seq<Entry>, g: seq<Entry>, i: nat, j: nat, k: Key)
    requires h <= g && i < |h| && k in h[i].now.syncs && SyncAnchored(h, i, k)
    requires i <= j < |g| && k in g[j].now.syncs && g[j].now.syncs[k] == h[i].now.syncs[k]
    ensures SyncAnchored(g, j, k)
  {
    assert g[h[i].now.syncs[k].rv] == h[h[i].now.syncs[k].rv];
  }

  lemma ExtendAnchors(h: seq<Entry>, e: Entry)
    requires Anchors(h) && h != []
    requires StepLegal(h + [e], |h|)
    requires e.who.Op?
    ensures Anchors(h + [e])
  {
    hide StepLegal, SecretAnchored, SyncAnchored;
    var g := h + [e];
    OpEffect(g, |h|);
    assert g[|h| - 1] == h[|h| - 1];
    forall i, k | 0 <= i < |g| && k in g[i].now.secrets ensures SecretAnchored(g, i, k) {
      if i == |h| && g[i].now.secrets[k].rv == i {
        SecretAnchoredHere(g, i, k);
      } else {
        SecretAnchoredOn(h, g, if i == |h| then i - 1 else i, i, k);
      }
    }
    forall i, k | 0 <= i < |g| && k in g[i].now.syncs ensures SyncAnchored(g, i, k) {
      if i == |h| && g[i].now.syncs[k].rv == i {
        SyncAnchoredHere(g, i, k);
      } else {
        SyncAnchoredOn(h, g, if i == |h| then i - 1 else i, i, k);
      }
    }
  }

  lemma SameObjectTrans(a: SecretSync, b: SecretSync, c: SecretSync)
    requires SameObject(a, b)
    requires b.uid == c.uid && b.created == c.created && b.deleting == c.deleting
    ensures SameObject(a, c)
  {
  }

  lemma ExtendIdentity(h: seq<Entry>, e: Entry)
    requires ValidHistory(h)
    requires StepLegal(h + [e], |h|)
    requires e.who.Op?
    ensures Identity(h + [e])
  {
    var g := h + [e];
    var n := |h|;
    OpEffect(g, n);
    hide StepLegal, Lawful, Anchors, SameObject;
    forall i, j, k | 0 <= i <= j < |g| && k in g[i].now.syncs && k in g[j].now.syncs
      ensures SameObject(g[i].now.syncs[k].obj, g[j].now.syncs[k].obj)
    {
      if j == n {
        if i < n {
          assert g[i] == h[i] && g[n - 1] == h[n - 1];
          assert k in h[n - 1].now.syncs;
          assert SameObject(h[i].now.syncs[k].obj, h[n - 1].now.syncs[k].obj);
          SameObjectTrans(h[i].now.syncs[k].obj, h[n - 1].now.syncs[k].obj, g[n].now.syncs[k].obj);
        }
      } else {
        assert g[i] == h[i] && g[j] == h[j];
      }
    }
  }

  /** `g` is `h` and one entry more, which differs from the last of `h` at most in the clock. */
  predicate Ticks(h: seq<Entry>, g: seq<Entry>) {
    && h != [] && |g| == |h| + 1 && h <= g
    && g[|h|].who == Env && h[|h| - 1].now.clock <= g[|h|].now.clock
    && g[|h|].now == h[|h| - 1].now.(clock := g[|h|].now.clock)
  }

  lemma TickLawful(h: seq<Entry>, g: seq<Entry>)
    requires Ticks(h, g) && Lawful(h)
    ensures Lawful(g)
  {
    hide StepLegal;
    forall i | 0 < i < |g| ensures StepLegal(g, i) {
      if i < |h| { StepLegalPrefix(h, g, i); } else { TickIsLegal(g, i); }
    }
  }

  lemma TickAnchors(h: seq<Entry>, g: seq<Entry>)
    requires Ticks(h, g) && Anchors(h)
    ensures Anchors(g)
  {
    hide SecretAnchored, SyncAnchored;
    forall i, k | 0 <= i < |g| && k in g[i].now.secrets ensures SecretAnchored(g, i, k) {
      var j := if i == |h| then i - 1 else i;
      assert SecretAnchored(h, j, k);
      SecretAnchoredOn(h, g, j, i, k);
    }
    forall i, k | 0 <= i < |g| && k in g[i].now.syncs ensures SyncAnchored(g, i, k) {
      var j := if i == |h| then i - 1 else i;
      assert SyncAnchored(h, j, k);
      SyncAnchoredOn(h, g, j, i, k);
    }
  }

  lemma TickIdentity(h: seq<Entry>, g: seq<Entry>)
    requires Ticks(h, g) && Identity(h)
    ensures Identity(g)
  {
    hide SameObject;
    forall i, j, k | 0 <= i <= j < |g| && k in g[i].now.syncs && k in g[j].now.syncs
      ensures SameObject(g[i].now.syncs[k].obj, g[j].now.syncs[k].obj)
    {
      var x, y := if i == |h| then i - 1 else i, if j == |h| then j - 1 else j;
      assert SameObject(h[x].now.syncs[k].obj, h[y].now.syncs[k].obj);
    }
  }

  /** Time passes and both caches catch up: nothing else changes. */
  lemma TimePasses(w: World, at: nat)
    requires Inv(w) && w.h != [] && Now(w).clock <= at
    ensures Inv(World(w.h + [Entry(Env, Now(w).(clock := at))], |w.h|, |w.h|))
  {
    hide Lawful, Anchors, Identity, Marked;
    var h, n := w.h, |w.h|;
    var g := h + [Entry(Env, Now(w).(clock := at))];
    TickLawful(h, g);
    TickAnchors(h, g);
    TickIdentity(h, g);
    forall i | 0 <= i < |g| && g[i].who.Op? && g[i].who.step.RemoveFinalizer?
      ensures exists c | 0 <= c <= n && c < |g| :: Marked(g[c].now, g[i].who.sync, g[i].who.uid)
    {
      var c :| 0 <= c <= w.syncAt && c < n && Marked(h[c].now, h[i].who.sync, h[i].who.uid);
      assert Marked(g[c].now, g[i].who.sync, g[i].who.uid);
    }
  }

  lemma TickIsLegal(g: seq<Entry>, n: nat)
    requires 0 < n < |g| && g[n].who == Env && g[n - 1].now.clock <= g[n].now.clock
    requires g[n].now == g[n - 1].now.(clock := g[n].now.clock)
    ensures StepLegal(g, n)
  {
  }

  lemma LaterReflexive(k: Key, w: World)
    ensures Later(k, w, w)
  {
  }

  lemma LaterTransitive(k: Key, a: World, b: World, c: World)
    requires Later(k, a, b) && Later(k, b, c)
    ensures Later(k, a, c)
  {
  }

  lemma LegalAt(h: seq<Entry>, i: nat)
    requires ValidHistory(h)
    requires 0 < i < |h|
    ensures StepLegal(h, i)
  {
    hide StepLegal, Anchors, Identity;
  }

  lemma GuardStep(h: seq<Entry>, i: nat, k: Key, uid: Uid)
    requires 0 < i < |h| && StepLegal(h, i)
    requires Guarded(h[i - 1].now, k, uid)
    requires h[i].who != Op(k, uid, RemoveFinalizer)
    ensures Guarded(h[i].now, k, uid)
  {
  }

  lemma VaultStep(h: seq<Entry>, i: nat)
    requires 0 < i < |h| && StepLegal(h, i)
    ensures VaultGrows(h[i - 1].now.vault, h[i].now.vault)
  {
    if h[i].who.Op? { OpEffect(h, i); }
  }

  /** A finalizer the operator does not remove stays, and so does the object that carries it. */
  lemma {:induction false} FinalizerKept(h: seq<Entry>, i: nat, j: nat, k: Key, uid: Uid)
    requires ValidHistory(h)
    requires i <= j < |h|
    requires Guarded(h[i].now, k, uid)
    requires forall m | i < m <= j :: h[m].who != Op(k, uid, RemoveFinalizer)
    ensures Guarded(h[j].now, k, uid)
  {
    hide ValidHistory, StepLegal;
    if i < j {
      FinalizerKept(h, i, j - 1, k, uid);
      LegalAt(h, j);
      GuardStep(h, j, k, uid);
    }
  }

  lemma GuardKept(k: Key, uid: Uid, a: World, b: World)
    requires ValidHistory(b.h) && a.h != [] && Later(k, a, b)
    requires Guarded(Now(a), k, uid)
    ensures Guarded(Now(b), k, uid)
  {
    hide ValidHistory;
    assert b.h[|a.h| - 1] == a.h[|a.h| - 1];
    FinalizerKept(b.h, |a.h| - 1, |b.h| - 1, k, uid);
  }

  lemma {:induction false} VaultMonotone(h: seq<Entry>, i: nat, j: nat)
    requires ValidHistory(h)
    requires i <= j < |h|
    ensures VaultGrows(h[i].now.vault, h[j].now.vault)
  {
    hide ValidHistory, StepLegal;
    if i < j {
      VaultMonotone(h, i, j - 1);
      LegalAt(h, j);
      VaultStep(h, j);
    }
  }

  /** Two copies of a Secret under one version are the same Secret. */
  lemma SameSecretVersion(h: seq<Entry>, i: nat, j: nat, k: Key)
    requires ValidHistory(h) && i < |h| && j < |h|
    requires k in h[i].now.secrets && k in h[j].now.secrets && h[i].now.secrets[k].rv == h[j].now.secrets[k].rv
    ensures h[i].now.secrets[k] == h[j].now.secrets[k]
  {
    hide Lawful, Identity;
    assert SecretAnchored(h, i, k) && SecretAnchored(h, j, k);
  }

  lemma SameSyncVersion(h: seq<Entry>, i: nat, j: nat, k: Key)
    requires ValidHistory(h) && i < |h| && j < |h|
    requires k in h[i].now.syncs && k in h[j].now.syncs && h[i].now.syncs[k].rv == h[j].now.syncs[k].rv
    ensures h[i].now.syncs[k] == h[j].now.syncs[k]
  {
    hide Lawful, Identity;
    assert SyncAnchored(h, i, k) && SyncAnchored(h, j, k);
  }

  // ----- One worker's view -----

  /** The copy a worker holds is one the API server stored. */
  predicate HoldsSecret(w: World, target: Key, s: Stored<Secret>) {
    exists i | 0 <= i < |w.h| :: target in w.h[i].now.secrets && w.h[i].now.secrets[target] == s
  }

  predicate HoldsSync(w: World, k: Key, ss: Stored<SecretSync>) {
    exists i | 0 <= i < |w.h| :: k in w.h[i].now.syncs && w.h[i].now.syncs[k] == ss
  }

  /** From `a` to `b` exactly one step was taken for `k`, the last one. */
  predicate Acts(k: Key, a: World, b: World, who: Actor) {
    && |a.h| < |b.h|
    && b.h[|b.h| - 1].who == who
    && Later(k, a, b.(h := b.h[..|b.h| - 1]))
  }

  /** All that a Secret write needs apart from the state of the target. */
  predicate MayWrite(w: World, k: Key, uid: Uid, t: Step) {
    && w.h != [] && t.WriteSecret?
    && Guarded(Now(w), k, uid)
    && t.copy < |w.h| && SyncIs(w.h[t.copy].now.syncs, k, uid)
    && !w.h[t.copy].now.syncs[k].obj.deleting
    && t.target == TargetKey(k, w.h[t.copy].now.syncs[k].obj)
    && t.seen < |w.h| && Grounded(w.h, k, t.want, w.h[t.copy].now.syncs[k].obj, t.seen)
    && forall j | t.seen < j < |w.h| :: !OwnWrite(w.h[j], k)
  }

  lemma MayWriteLater(a: World, b: World, k: Key, uid: Uid, t: Step)
    requires MayWrite(a, k, uid, t) && Later(k, a, b) && ValidHistory(b.h)
    ensures MayWrite(b, k, uid, t)
  {
    hide ValidHistory, Latest, IntentOf;
    GuardKept(k, uid, a, b);
    assert b.h[t.copy] == a.h[t.copy] && b.h[t.seen] == a.h[t.seen];
  }

  lemma HoldsLater(a: World, b: World, target: Key, s: Stored<Secret>)
    requires HoldsSecret(a, target, s) && a.h <= b.h
    ensures HoldsSecret(b, target, s)
  {
    var i :| 0 <= i < |a.h| && target in a.h[i].now.secrets && a.h[i].now.secrets[target] == s;
    assert b.h[i] == a.h[i];
  }

  lemma HoldsSyncLater(a: World, b: World, k: Key, ss: Stored<SecretSync>)
    requires HoldsSync(a, k, ss) && a.h <= b.h
    ensures HoldsSync(b, k, ss)
  {
    var i :| 0 <= i < |a.h| && k in a.h[i].now.syncs && a.h[i].now.syncs[k] == ss;
    assert b.h[i] == a.h[i];
  }

  /** A held copy whose version is still current is the current object. */
  lemma HeldIsCurrent(w: World, target: Key, s: Stored<Secret>)
    requires ValidHistory(w.h) && HoldsSecret(w, target, s)
    requires target in Now(w).secrets && Now(w).secrets[target].rv == s.rv
    ensures Now(w).secrets[target] == s
  {
    hide ValidHistory;
    var i :| 0 <= i < |w.h| && target in w.h[i].now.secrets && w.h[i].now.secrets[target] == s;
    SameSecretVersion(w.h, i, |w.h| - 1, target);
  }

  lemma HeldSyncIsCurrent(w: World, k: Key, ss: Stored<SecretSync>)
    requires ValidHistory(w.h) && HoldsSync(w, k, ss)
    requires k in Now(w).syncs && Now(w).syncs[k].rv == ss.rv
    ensures Now(w).syncs[k] == ss
  {
    hide ValidHistory;
    var i :| 0 <= i < |w.h| && k in w.h[i].now.syncs && w.h[i].now.syncs[k] == ss;
    SameSyncVersion(w.h, i, |w.h| - 1, k);
  }

  /** Evidence for a status is evidence for any status of that version and time, in every longer history. */
  lemma ProofPrefix(h: seq<Entry>, g: seq<Entry>, i: nat, k: Key, ss: SecretSync, s: Status, t: Status, p: Proof)
    requires i <= |h| && h <= g && t.syncedVersion == s.syncedVersion && t.lastSync == s.lastSync
    ensures ProofHolds(h, i, k, ss, s, p) == ProofHolds(g, i, k, ss, t, p)
  {
    hide Exact, Latest, IntentOf, TargetKey;
    forall j | 0 <= j < |h| ensures g[j] == h[j] {}
  }

  /** It stays current as long as nothing else is done on behalf of `k`. */
  lemma ProofLater(k: Key, a: World, b: World, ss: SecretSync, s: Status, t: Status, p: Proof)
    requires ProofHolds(a.h, |a.h|, k, ss, s, p) && Later(k, a, b)
    requires t.syncedVersion == s.syncedVersion && t.lastSync == s.lastSync
    ensures ProofHolds(b.h, |b.h|, k, ss, t, p)
  {
    hide Exact, Latest, IntentOf, TargetKey;
    forall j | 0 <= j < |a.h| ensures b.h[j] == a.h[j] {}
  }

  /** What the cache shows now is no earlier than what any report has looked at. */
  lemma LooksOnNow(w: World, k: Key)
    requires Inv(w)
    ensures LooksOn(w.h, |w.h|, k, w.secretAt)
  {
    hide ValidHistory, RemovalSeen;
  }

  lemma LooksOnLater(k: Key, a: World, b: World, looked: nat, later: nat)
    requires LooksOn(a.h, |a.h|, k, looked) && Later(k, a, b) && looked <= later
    ensures LooksOn(b.h, |b.h|, k, later)
  {
    forall j | 0 <= j < |a.h| ensures b.h[j] == a.h[j] {}
  }
}
