/**
 The API server, the vault and the informer caches as one worker meets them. Between any two
 calls everybody else may do anything lawful (`Interfere`), and a call may fail without effect.
 A quiet server has neither interference nor faults; its calls then have one exact outcome.
 */
module Api {
  import opened Objects
  import opened History

  datatype Got<+T> = Found(item: T) | Missing | Unreadable

  datatype Reply = Done | AlreadyExists | Conflict | Invalid | Gone | Refused

  datatype ReadError = NotFound | Disabled | Denied | AuthFailure | Transient | Unclassified

  datatype VaultRead = ReadOk(version: VaultVersion) | ReadFailed(error: ReadError)

  /** One call of a Secret write and its answer; `at` is the entry a read showed. */
  datatype Call =
    | Looked(r: Got<Stored<Secret>>, at: nat)
    | Created(reply: Reply)
    | Updated(from: Stored<Secret>, reply: Reply)

  /** What the vault and the calls of Secret writes have been heard to answer. */
  datatype Record = Record(answers: seq<VaultRead>, calls: seq<Call>)

  /** What the label-filtered Secret cache shows of a Secret. */
  function Visible(secrets: SecretMap, target: Key): Option<Stored<Secret>> {
    if target in secrets && Labelled(secrets[target].obj) then Some(secrets[target]) else None
  }

  /** All that the label-filtered Secret cache shows. */
  function Shown(secrets: SecretMap): SecretMap {
    map s | s in secrets && Labelled(secrets[s].obj) :: secrets[s]
  }

  function Commit(w: World, who: Actor, now: Snapshot): World {
    w.(h := w.h + [Entry(who, now)])
  }

  lemma CommitActs(k: Key, a: World, b: World, who: Actor, now: Snapshot)
    requires Later(k, a, b)
    ensures Acts(k, a, Commit(b, who, now), who)
  {
    var c := Commit(b, who, now);
    assert c.h[..|c.h| - 1] == b.h;
  }

  class Server {
    var w: World
    const quiet: bool
    // Whether re-reads bypass the cache (the manager wires an uncached reader).
    const uncached: bool

    // How many Secret calls were made.
    ghost var gets: nat
    ghost var creates: nat
    ghost var updates: nat

    // How many calls other than those of a Secret write have failed.
    ghost var failed: nat

    // What the vault has answered so far, and what the calls of Secret writes have been answered.
    ghost var answers: seq<VaultRead>
    ghost var calls: seq<Call>

    constructor (w: World, quiet: bool, uncached: bool)
      requires Inv(w)
      ensures this.w == w && this.quiet == quiet && this.uncached == uncached
    {
      this.w, this.quiet, this.uncached := w, quiet, uncached;
      gets, creates, updates, failed, answers, calls := 0, 0, 0, 0, [], [];
    }

    ghost function Heard(): Record
      reads this`answers, this`calls
    {
      Record(answers, calls)
    }

    /** The rely step. */
    method Interfere(k: Key)
      requires Inv(w)
      modifies this`w
      ensures Inv(w) && Later(k, old(w), w)
      ensures quiet ==> w == old(w)
    {
      hide Inv;
      if !quiet {
        var n: World := *;
        if Inv(n) && Later(k, w, n) {
          w := n;
        }
      }
    }

    method Fault() returns (b: bool)
      ensures quiet ==> !b
    {
      b := *;
      b := b && !quiet;
    }

    method Clock(k: Key) returns (now: nat)
      requires Inv(w)
      modifies this`w
      ensures Inv(w) && Later(k, old(w), w)
      ensures now == Now(w).clock && ClockRead(w.h, |w.h|, k, now)
      ensures quiet ==> w == old(w)
    {
      hide Inv, ClockRead, Later;
      Interfere(k);
      InvValid(w);
      ReadNow(w, k);
      now := Now(w).clock;
    }

    /** Between two undisturbed reconciles: time goes on to `at` and the informers catch up. */
    method CatchUp(at: nat)
      requires Inv(w) && w.h != [] && quiet && Now(w).clock <= at
      modifies this`w
      ensures Inv(w) && w.h != [] && w.secretAt == w.syncAt == |w.h| - 1
      ensures Now(w) == Now(old(w)).(clock := at)
    {
      hide Inv;
      TimePasses(w, at);
      w := World(w.h + [Entry(Env, Now(w).(clock := at))], |w.h|, |w.h|);
    }

    // ----- Reads -----

    method GetSync(k: Key) returns (r: Got<Stored<SecretSync>>)
      requires Inv(w)
      modifies this`w, this`failed
      ensures Inv(w) && Later(k, old(w), w)
      ensures failed == old(failed) + if r.Unreadable? then 1 else 0
      ensures r.Found? ==> k in w.h[w.syncAt].now.syncs && r.item == w.h[w.syncAt].now.syncs[k]
      ensures r.Missing? ==> k !in w.h[w.syncAt].now.syncs
      ensures quiet ==> w == old(w) && !r.Unreadable?
    {
      Interfere(k);
      var bad := Fault();
      if bad { failed := failed + 1; }
      var m := w.h[w.syncAt].now.syncs;
      r := if bad then Unreadable else if k in m then Found(m[k]) else Missing;
    }

    method ListSyncs(k: Key) returns (r: Got<SyncMap>)
      requires Inv(w)
      modifies this`w, this`failed
      ensures Inv(w) && Later(k, old(w), w)
      ensures failed == old(failed) + if r.Unreadable? then 1 else 0
      ensures r.Found? ==> r.item == w.h[w.syncAt].now.syncs
      ensures !r.Missing?
      ensures quiet ==> w == old(w) && r.Found?
    {
      Interfere(k);
      var bad := Fault();
      if bad { failed := failed + 1; }
      r := if bad then Unreadable else Found(w.h[w.syncAt].now.syncs);
    }

    /** `writing`: the call is part of a Secret write. */
    method GetSecret(k: Key, target: Key, ghost writing: bool) returns (r: Got<Stored<Secret>>)
      requires Inv(w)
      modifies this`w, this`gets, this`failed, this`calls
      ensures Inv(w) && Later(k, old(w), w)
      ensures r.Found? ==>
                && Visible(w.h[w.secretAt].now.secrets, target) == Some(r.item)
                && HoldsSecret(w, target, r.item)
      ensures r.Missing? ==> Visible(w.h[w.secretAt].now.secrets, target) == None
      ensures quiet ==> w == old(w) && !r.Unreadable?
      ensures gets == old(gets) + 1
      ensures failed == old(failed) + if r.Unreadable? && !writing then 1 else 0
      ensures calls == old(calls) + if writing then [Looked(r, w.secretAt)] else []
    {
      gets := gets + 1;
      Interfere(k);
      var bad := Fault();
      if bad && !writing { failed := failed + 1; }
      var v := Visible(w.h[w.secretAt].now.secrets, target);
      r := if bad then Unreadable else if v.Some? then Found(v.value) else Missing;
      if writing { calls := calls + [Looked(r, w.secretAt)]; }
    }

    /** The re-read after a rejected write: the truth when an uncached reader is wired. */
    method ReRead(k: Key, target: Key) returns (r: Got<Stored<Secret>>)
      requires Inv(w)
      modifies this`w, this`gets, this`failed, this`calls
      ensures Inv(w) && Later(k, old(w), w)
      ensures r.Found? ==> HoldsSecret(w, target, r.item)
      ensures uncached && r.Found? ==> target in Now(w).secrets && r.item == Now(w).secrets[target]
      ensures uncached && r.Missing? ==> target !in Now(w).secrets
      ensures quiet ==> w == old(w) && !r.Unreadable?
      ensures gets == old(gets) + 1 && failed == old(failed)
      ensures calls == old(calls) + [Looked(r, if uncached then |w.h| - 1 else w.secretAt)]
      ensures r.Found? && !uncached ==> Visible(w.h[w.secretAt].now.secrets, target) == Some(r.item)
    {
      if uncached {
        gets := gets + 1;
        Interfere(k);
        var bad := Fault();
        var m := Now(w).secrets;
        r := if bad then Unreadable else if target in m then Found(m[target]) else Missing;
        calls := calls + [Looked(r, |w.h| - 1)];
      } else {
        r := GetSecret(k, target, true);
      }
    }

    method ListSecrets(k: Key) returns (r: Got<SecretMap>)
      requires Inv(w)
      modifies this`w, this`failed
      ensures Inv(w) && Later(k, old(w), w)
      ensures failed == old(failed) + if r.Unreadable? then 1 else 0
      ensures r.Found? ==> r.item == Shown(w.h[w.secretAt].now.secrets)
      ensures !r.Missing?
      ensures quiet ==> w == old(w) && r.Found?
    {
      Interfere(k);
      var bad := Fault();
      if bad { failed := failed + 1; }
      var m := w.h[w.secretAt].now.secrets;
      r := if bad then Unreadable else Found(Shown(m));
    }

    method ReadVault(k: Key, source: VaultRef) returns (r: VaultRead)
      requires Inv(w)
      modifies this`w, this`answers
      ensures Inv(w) && Later(k, old(w), w)
      ensures answers == old(answers) + [r]
      ensures r.ReadOk? ==> Latest(Now(w).vault, source) == Some(r.version)
      ensures quiet ==> w == old(w)
      ensures quiet ==> r == match Latest(Now(w).vault,
              source) { case Some(v) => ReadOk(v) case None => ReadFailed(NotFound) }
    {
      Interfere(k);
      var bad := Fault();
      var error: ReadError := *;
      var v := Latest(Now(w).vault, source);
      r := if bad then ReadFailed(error) else if v.Some? then ReadOk(v.value) else ReadFailed(NotFound);
      answers := answers + [r];
    }

    // ----- Writes of Secrets -----

    method Create(k: Key, uid: Uid, secret: Secret, t: Step) returns (r: Reply)
      requires Inv(w) && MayWrite(w, k, uid, t)
      requires secret == Rewrite(BLANK, t.want)
      modifies this`w, this`creates, this`calls
      ensures Inv(w)
      ensures r.Done? ==> Acts(k, old(w), w, Op(k, uid, t))
      ensures !r.Done? ==> Later(k, old(w), w) && MayWrite(w, k, uid, t)
      ensures quiet ==> r == if t.target in Now(old(w)).secrets then AlreadyExists else Done
      ensures quiet && r.Done? ==>
                var now := Now(old(w));
                w == Commit(old(w), Op(k, uid, t), now.(secrets := now.secrets[t.target := Stored(secret, |old(w).h|)]))
      ensures quiet && !r.Done? ==> w == old(w)
      ensures creates == old(creates) + 1
      ensures calls == old(calls) + [Created(r)]
    {
      hide Inv, MayWrite, Rewrite;
      creates := creates + 1;
      Interfere(k);
      InvValid(w);
      MayWriteLater(old(w), w, k, uid, t);
      var bad := Fault();
      MayWriteBasics(w, k, uid, t);
      if bad {
        r := Refused;
      } else if t.target in Now(w).secrets {
        r := AlreadyExists;
      } else {
        var now := Now(w);
        var next := Commit(w, Op(k, uid, t), now.(secrets := now.secrets[t.target := Stored(secret, |w.h|)]));
        CreateLegal(w, k, uid, t, secret);
        CommitActs(k, old(w), w, Op(k, uid, t), now.(secrets := now.secrets[t.target := Stored(secret, |w.h|)]));
        w := next;
        r := Done;
      }
      calls := calls + [Created(r)];
    }

    method Update(k: Key, uid: Uid, ghost from: Stored<Secret>, rv: nat, secret: Secret, t: Step) returns (r: Reply)
      requires Inv(w) && MayWrite(w, k, uid, t)
      requires HoldsSecret(w, t.target, from) && rv == from.rv
      requires Writable(from.obj, uid) && !Foreign(from.obj, uid)
      requires secret == Rewrite(from.obj, t.want)
      modifies this`w, this`updates, this`calls
      ensures Inv(w)
      ensures r.Done? ==> Acts(k, old(w), w, Op(k, uid, t))
      ensures !r.Done? ==> Later(k, old(w), w) && MayWrite(w, k, uid, t)
      ensures quiet ==>
                r == if t.target !in Now(old(w)).secrets then Gone
                else if Now(old(w)).secrets[t.target].rv != from.rv then Conflict
                else if ImmutableBlocks(from.obj, t.want.dataKey, t.want.value) then Invalid
                else Done
      ensures quiet && r.Done? ==>
                var now := Now(old(w));
                w == Commit(old(w), Op(k, uid, t), now.(secrets := now.secrets[t.target := Stored(secret, |old(w).h|)]))
      ensures quiet && !r.Done? ==> w == old(w)
      ensures updates == old(updates) + 1
      ensures calls == old(calls) + [Updated(from, r)]
    {
      hide Inv, MayWrite, Rewrite, HoldsSecret;
      updates := updates + 1;
      Interfere(k);
      InvValid(w);
      MayWriteLater(old(w), w, k, uid, t);
      MayWriteBasics(w, k, uid, t);
      HoldsLater(old(w), w, t.target, from);
      var bad := Fault();
      var rejected := Fault();
      if bad {
        r := Refused;
      } else if t.target !in Now(w).secrets {
        r := Gone;
      } else if Now(w).secrets[t.target].rv != rv {
        r := Conflict;
      } else if rejected || (Frozen(Now(w).secrets[t.target].obj) && Now(w).secrets[t.target].obj.data != secret.data) {
        HeldIsCurrent(w, t.target, from);
        RewriteData(from.obj, t.want);
        DataMatchesExactly(from.obj, t.want.dataKey, t.want.value);
        r := Invalid;
      } else {
        HeldIsCurrent(w, t.target, from);
        RewriteData(from.obj, t.want);
        DataMatchesExactly(from.obj, t.want.dataKey, t.want.value);
        var now := Now(w);
        var next := Commit(w, Op(k, uid, t), now.(secrets := now.secrets[t.target := Stored(secret, |w.h|)]));
        UpdateLegal(w, k, uid, t, from, secret);
        CommitActs(k, old(w), w, Op(k, uid, t), now.(secrets := now.secrets[t.target := Stored(secret, |w.h|)]));
        w := next;
        r := Done;
      }
      calls := calls + [Updated(from, r)];
    }

    /** Deletes whatever is at the target now; the caller vouches only for the copy it read. */
    method Delete(k: Key, uid: Uid, target: Key, seen: nat) returns (r: Reply)
      requires Inv(w) && seen < |w.h| && target in w.h[seen].now.secrets
      requires Labelled(w.h[seen].now.secrets[target].obj) && ControlledBy(w.h[seen].now.secrets[target].obj, uid)
      modifies this`w, this`failed
      ensures Inv(w)
      ensures failed == old(failed) + if r.Refused? then 1 else 0
      ensures r in {Done, Gone, Refused}
      ensures r.Done? ==> Acts(k, old(w), w, Op(k, uid, DeleteSecret(target, seen)))
      ensures !r.Done? ==> Later(k, old(w), w)
      ensures w.h != [] && (!r.Refused? ==> target !in Now(w).secrets)
      ensures quiet ==> r == if target in Now(old(w)).secrets then Done else Gone
      ensures quiet && r.Done? ==>
                var now := Now(old(w));
                w == Commit(old(w), Op(k, uid, DeleteSecret(target, seen)), now.(secrets := now.secrets - {target}))
      ensures quiet && !r.Done? ==> w == old(w)
    {
      hide Inv;
      Interfere(k);
      InvValid(w);
      var bad := Fault();
      if bad {
        r := Refused;
      } else if target !in Now(w).secrets {
        r := Gone;
      } else {
        var now := Now(w);
        assert w.h[seen] == old(w).h[seen];
        DeletionLegal(w, k, uid, target, seen);
        CommitActs(k, old(w), w, Op(k, uid, DeleteSecret(target, seen)), now.(secrets := now.secrets - {target}));
        w := Commit(w, Op(k, uid, DeleteSecret(target, seen)), now.(secrets := now.secrets - {target}));
        r := Done;
      }
      if r.Refused? { failed := failed + 1; }
    }

    // ----- Writes of SecretSyncs -----

    /** The status subresource: accepted only if the held copy is still the current one. */
    method PutStatus(k: Key, ss: Stored<SecretSync>, s: Status, now: nat, proof: Option<Proof>)
      returns (r: Reply, next: Stored<SecretSync>)
      requires Inv(w) && HoldsSync(w, k, ss)
      requires StatusStep(ss.obj, s, now)
      requires ClockRead(w.h, |w.h|, k, now)
      requires if s.state == InSync then proof.Some? && ProofHolds(w.h, |w.h|, k, ss.obj, s, proof.value)
               else proof.None?
      requires proof.Some? ==> proof.value.looked <= w.secretAt
      modifies this`w, this`failed
      ensures Inv(w)
      ensures failed == old(failed) + if !r.Done? then 1 else 0
      ensures r.Done? ==>
                && Acts(k, old(w), w, Op(k, ss.obj.uid, History.PutStatus(now, proof)))
                && next == Stored(ss.obj.(status := s), |w.h| - 1)
                && k in Now(w).syncs && Now(w).syncs[k] == next && HoldsSync(w, k, next)
      ensures !r.Done? ==> Later(k, old(w), w) && next == ss && HoldsSync(w, k, ss)
      ensures quiet && k in Now(old(w)).syncs && Now(old(w)).syncs[k] == ss ==>
                && r.Done?
                && w == Commit(old(w), Op(k, ss.obj.uid, History.PutStatus(now, proof)),
                               Now(old(w)).(syncs := Now(old(w)).syncs[k := next]))
    {
      hide Inv, StatusStep, HoldsSync, ProofHolds, ClockRead;
      Interfere(k);
      InvValid(w);
      ClockReadLater(k, old(w), w, now);
      HoldsSyncLater(old(w), w, k, ss);
      if s.state == InSync { ProofLater(k, old(w), w, ss.obj, s, s, proof.value); }
      var bad := Fault();
      next := ss;
      if bad {
        r := Refused;
      } else if k !in Now(w).syncs {
        r := Gone;
      } else if Now(w).syncs[k].rv != ss.rv {
        r := Conflict;
      } else {
        HeldSyncIsCurrent(w, k, ss);
        next := Stored(ss.obj.(status := s), |w.h|);
        StatusWriteLegal(w, k, ss, s, now, proof);
        var after := Now(w).(syncs := Now(w).syncs[k := next]);
        CommitActs(k, old(w), w, Op(k, ss.obj.uid, History.PutStatus(now, proof)), after);
        w := Commit(w, Op(k, ss.obj.uid, History.PutStatus(now, proof)), after);
        HoldsNow(w, k);
        r := Done;
      }
      if !r.Done? { failed := failed + 1; }
    }

    method AddFinalizer(k: Key, ss: Stored<SecretSync>) returns (r: Reply, next: Stored<SecretSync>)
      requires Inv(w) && HoldsSync(w, k, ss) && !ss.obj.deleting
      modifies this`w, this`failed
      ensures Inv(w)
      ensures failed == old(failed) + if !r.Done? then 1 else 0
      ensures r.Done? ==>
                && Acts(k, old(w), w, Op(k, ss.obj.uid, History.AddFinalizer))
                && next == Stored(ss.obj.(finalizer := true), |w.h| - 1)
                && k in Now(w).syncs && Now(w).syncs[k] == next && HoldsSync(w, k, next)
      ensures !r.Done? ==> Later(k, old(w), w)
      ensures quiet && k in Now(old(w)).syncs && Now(old(w)).syncs[k] == ss ==>
                && r.Done?
                && w == Commit(old(w), Op(k, ss.obj.uid, History.AddFinalizer),
                               Now(old(w)).(syncs := Now(old(w)).syncs[k := next]))
    {
      hide Inv, HoldsSync;
      Interfere(k);
      InvValid(w);
      HoldsSyncLater(old(w), w, k, ss);
      var bad := Fault();
      next := ss;
      if bad {
        r := Refused;
      } else if k !in Now(w).syncs {
        r := Gone;
      } else if Now(w).syncs[k].rv != ss.rv {
        r := Conflict;
      } else {
        HeldSyncIsCurrent(w, k, ss);
        next := Stored(ss.obj.(finalizer := true), |w.h|);
        FinalizerAddLegal(w, k, ss);
        var after := Now(w).(syncs := Now(w).syncs[k := next]);
        CommitActs(k, old(w), w, Op(k, ss.obj.uid, History.AddFinalizer), after);
        w := Commit(w, Op(k, ss.obj.uid, History.AddFinalizer), after);
        HoldsNow(w, k);
        r := Done;
      }
      if !r.Done? { failed := failed + 1; }
    }

    /** `seen` is where the worker saw the deletion mark; the cache is already there or beyond. */
    method RemoveFinalizer(k: Key, ss: Stored<SecretSync>, seen: nat) returns (r: Reply)
      requires Inv(w) && seen <= w.syncAt
      requires k in w.h[seen].now.syncs && w.h[seen].now.syncs[k] == ss && ss.obj.deleting
      modifies this`w, this`failed
      ensures Inv(w)
      ensures failed == old(failed) + if !r.Done? then 1 else 0
      ensures r.Done? ==> Acts(k, old(w), w, Op(k, ss.obj.uid, History.RemoveFinalizer))
      ensures !r.Done? ==> Later(k, old(w), w)
      ensures quiet && k in Now(old(w)).syncs && Now(old(w)).syncs[k] == ss ==>
                && r.Done?
                && w == Commit(old(w), Op(k, ss.obj.uid, History.RemoveFinalizer),
                               Now(old(w)).(syncs := WithoutFinalizer(Now(old(w)).syncs, k, |old(w).h|)))
    {
      hide Inv, HoldsSync;
      InvValid(w);
      HoldsThere(w, k, seen);
      Interfere(k);
      InvValid(w);
      HoldsSyncLater(old(w), w, k, ss);
      assert w.h[seen] == old(w).h[seen];
      var bad := Fault();
      if bad {
        r := Refused;
      } else if k !in Now(w).syncs {
        r := Gone;
      } else if Now(w).syncs[k].rv != ss.rv {
        r := Conflict;
      } else {
        HeldSyncIsCurrent(w, k, ss);
        FinalizerRemovalLegal(w, k, ss, seen);
        var after := Now(w).(syncs := WithoutFinalizer(Now(w).syncs, k, |w.h|));
        CommitActs(k, old(w), w, Op(k, ss.obj.uid, History.RemoveFinalizer), after);
        w := Commit(w, Op(k, ss.obj.uid, History.RemoveFinalizer), after);
        r := Done;
      }
      if !r.Done? { failed := failed + 1; }
    }
  }

  // ----- Each accepted call is a legal step -----

  lemma HoldsThere(w: World, k: Key, i: nat)
    requires i < |w.h| && k in w.h[i].now.syncs
    ensures HoldsSync(w, k, w.h[i].now.syncs[k])
  {
  }

  lemma HoldsNow(w: World, k: Key)
    requires w.h != [] && k in Now(w).syncs
    ensures HoldsSync(w, k, Now(w).syncs[k])
  {
    HoldsThere(w, k, |w.h| - 1);
  }

  lemma InvValid(w: World)
    requires Inv(w)
    ensures ValidHistory(w.h) && w.h != [] && w.secretAt < |w.h| && w.syncAt < |w.h|
  {
    hide Anchors, Identity, Lawful, RemovalSeen, LooksShown;
  }

  lemma MayWriteBasics(w: World, k: Key, uid: Uid, t: Step)
    requires MayWrite(w, k, uid, t)
    ensures t.WriteSecret? && w.h != [] && t.want.uid == uid
  {
  }

  lemma RewriteData(s: Secret, want: Intent)
    ensures Rewrite(s, want).data == map[want.dataKey := want.value]
  {
  }

  lemma CreateLegal(w: World, k: Key, uid: Uid, t: Step, secret: Secret)
    requires Inv(w) && MayWrite(w, k, uid, t)
    requires t.target !in Now(w).secrets && secret == Rewrite(BLANK, t.want)
    ensures Inv(Commit(w, Op(k, uid, t), Now(w).(secrets := Now(w).secrets[t.target := Stored(secret, |w.h|)])))
  {
    hide ValidHistory, RemovalSeen, Rewrite, Latest, IntentOf;
    InvValid(w);
    var e := Entry(Op(k, uid, t), Now(w).(secrets := Now(w).secrets[t.target := Stored(secret, |w.h|)]));
    assert WriteLegal(w.h + [e], |w.h|, k, uid, t.target, t.want, t.copy, t.seen);
    Extend(w, e);
  }

  lemma UpdateLegal(w: World, k: Key, uid: Uid, t: Step, from: Stored<Secret>, secret: Secret)
    requires Inv(w) && MayWrite(w, k, uid, t)
    requires t.target in Now(w).secrets && Now(w).secrets[t.target] == from
    requires Writable(from.obj, uid) && !Foreign(from.obj, uid)
    requires !ImmutableBlocks(from.obj, t.want.dataKey, t.want.value)
    requires secret == Rewrite(from.obj, t.want)
    ensures Inv(Commit(w, Op(k, uid, t), Now(w).(secrets := Now(w).secrets[t.target := Stored(secret, |w.h|)])))
  {
    hide ValidHistory, RemovalSeen, Rewrite, Latest, IntentOf, Writable, Foreign, ImmutableBlocks;
    InvValid(w);
    var e := Entry(Op(k, uid, t), Now(w).(secrets := Now(w).secrets[t.target := Stored(secret, |w.h|)]));
    assert WriteLegal(w.h + [e], |w.h|, k, uid, t.target, t.want, t.copy, t.seen);
    Extend(w, e);
  }

  lemma DeletionLegal(w: World, k: Key, uid: Uid, target: Key, seen: nat)
    requires Inv(w) && seen < |w.h| && target in w.h[seen].now.secrets
    requires Labelled(w.h[seen].now.secrets[target].obj) && ControlledBy(w.h[seen].now.secrets[target].obj, uid)
    ensures Inv(Commit(w, Op(k, uid, DeleteSecret(target, seen)), Now(w).(secrets := Now(w).secrets - {target})))
  {
    hide ValidHistory, RemovalSeen;
    InvValid(w);
    var e := Entry(Op(k, uid, DeleteSecret(target, seen)), Now(w).(secrets := Now(w).secrets - {target}));
    assert DeleteLegal(w.h + [e], |w.h|, uid, target, seen);
    Extend(w, e);
  }

  lemma StatusWriteLegal(w: World, k: Key, ss: Stored<SecretSync>, s: Status, now: nat, proof: Option<Proof>)
    requires Inv(w) && k in Now(w).syncs && Now(w).syncs[k] == ss
    requires StatusStep(ss.obj, s, now)
    requires ClockRead(w.h, |w.h|, k, now)
    requires if s.state == InSync then proof.Some? && ProofHolds(w.h, |w.h|, k, ss.obj, s, proof.value) else proof.None?
    requires proof.Some? ==> proof.value.looked <= w.secretAt
    ensures Inv(Commit(w, Op(k, ss.obj.uid, PutStatus(now, proof)),
                       Now(w).(syncs := Now(w).syncs[k := Stored(ss.obj.(status := s), |w.h|)])))
  {
    hide ValidHistory, RemovalSeen, StatusStep, ProofHolds, ClockRead, LooksShown;
    InvValid(w);
    var e := Entry(Op(k, ss.obj.uid, PutStatus(now, proof)),
                   Now(w).(syncs := Now(w).syncs[k := Stored(ss.obj.(status := s), |w.h|)]));
    var g := w.h + [e];
    ClockReadPrefix(w.h, g, |w.h|, k, now);
    if s.state == InSync { ProofPrefix(w.h, g, |w.h|, k, ss.obj, s, s, proof.value); }
    assert StatusLegal(g, |w.h|, k, ss.obj.uid, now, proof);
    Extend(w, e);
  }

  lemma FinalizerAddLegal(w: World, k: Key, ss: Stored<SecretSync>)
    requires Inv(w) && k in Now(w).syncs && Now(w).syncs[k] == ss && !ss.obj.deleting
    ensures Inv(Commit(w, Op(k, ss.obj.uid, AddFinalizer),
                       Now(w).(syncs := Now(w).syncs[k := Stored(ss.obj.(finalizer := true), |w.h|)])))
  {
    hide ValidHistory, RemovalSeen;
    InvValid(w);
    var e := Entry(Op(k, ss.obj.uid, AddFinalizer),
                   Now(w).(syncs := Now(w).syncs[k := Stored(ss.obj.(finalizer := true), |w.h|)]));
    assert StepLegal(w.h + [e], |w.h|);
    Extend(w, e);
  }

  lemma FinalizerRemovalLegal(w: World, k: Key, ss: Stored<SecretSync>, seen: nat)
    requires Inv(w) && k in Now(w).syncs && Now(w).syncs[k] == ss
    requires seen <= w.syncAt && k in w.h[seen].now.syncs && w.h[seen].now.syncs[k] == ss && ss.obj.deleting
    ensures Inv(Commit(w, Op(k, ss.obj.uid, RemoveFinalizer),
                       Now(w).(syncs := WithoutFinalizer(Now(w).syncs, k, |w.h|))))
  {
    hide ValidHistory, RemovalSeen;
    InvValid(w);
    var e := Entry(Op(k, ss.obj.uid, RemoveFinalizer), Now(w).(syncs := WithoutFinalizer(Now(w).syncs, k, |w.h|)));
    assert StepLegal(w.h + [e], |w.h|);
    ExtendRemoval(w, e, seen);
  }
}
