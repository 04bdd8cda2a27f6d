/**
 The Secret as an in-memory object that the engine and the writer change in place, and the
 SecretWriter, the only code that stores a secret value in the cluster.
 */
module Writer {
  import opened Objects
  import opened History
  import opened Api

  class SecretObject {
    var secretType: SecretType
    var labels: map<LabelKey, LabelValue>
    var annotations: map<AnnotationKey, string>
    var data: map<string, string>
    var owners: seq<OwnerRef>
    var immutable: Option<bool>
    var rv: nat

    function Value(): Secret
      reads this
    {
      Secret(secretType, labels, annotations, data, owners, immutable)
    }

    constructor Decode(s: Stored<Secret>)
      ensures Value() == s.obj && rv == s.rv
    {
      secretType, labels, annotations := s.obj.secretType, s.obj.labels, s.obj.annotations;
      data, owners, immutable, rv := s.obj.data, s.obj.owners, s.obj.immutable, s.rv;
    }

    constructor Blank()
      ensures Value() == BLANK
    {
      secretType, labels, annotations := BLANK.secretType, BLANK.labels, BLANK.annotations;
      data, owners, immutable, rv := BLANK.data, BLANK.owners, BLANK.immutable, 0;
    }

    method Populate(want: Intent)
      modifies this
      ensures Value() == Objects.Populate(old(Value()), want) && rv == old(rv)
    {
      secretType := OpaqueSecret;
      labels := labels[ManagedBy := Kvsynk8s];
      annotations := annotations[AnnVault := want.vault];
      annotations := annotations[AnnSecret := want.secret];
      annotations := annotations[AnnVersion := want.version];
      data := map[want.dataKey := want.value];
    }

    method SetController(uid: Uid) returns (ok: bool)
      modifies this`owners
      ensures ok <==> Objects.SetController(old(Value()), uid).Some?
      ensures Value() == if ok then Objects.SetController(old(Value()), uid).value else old(Value())
    {
      var c := ControllerOf(owners);
      ok := !(c.Some? && c != Some(uid));
      if ok { owners := Upsert(owners, uid); }
    }
  }

  datatype Outcome = Nil | ErrTargetConflict | ErrTargetImmutable | ErrApi(reply: Reply)

  // ----- The outcome on a quiet server -----

  /** One attempt to rewrite the target from the copy `from`. */
  function ApplyOutcome(now: SecretMap, target: Key, from: Stored<Secret>, want: Intent): Outcome {
    if ImmutableBlocks(from.obj, want.dataKey, want.value) then ErrTargetImmutable
    else if Foreign(from.obj, want.uid) then ErrTargetConflict
    else if target !in now then ErrApi(Gone)
    else if now[target].rv != from.rv then ErrApi(Conflict)
    else Nil
  }

  function UpdateOutcome(now: SecretMap, target: Key, from: Stored<Secret>, want: Intent): Outcome {
    var first := ApplyOutcome(now, target, from, want);
    if first == ErrApi(Conflict) && target in now then
      if Writable(now[target].obj, want.uid) then ApplyOutcome(now, target, now[target], want) else ErrTargetConflict
    else first
  }

  /** CreateOrUpdate deciding from the copy the cache shows. */
  function CachedWrite(now: SecretMap, target: Key, cached: Option<Stored<Secret>>, want: Intent): Outcome {
    match cached
    case Some(c) => if Writable(c.obj, want.uid) then UpdateOutcome(now, target, c, want) else ErrTargetConflict
    case None =>
      if target !in now then Nil
      else if Writable(now[target].obj, want.uid) then UpdateOutcome(now, target, now[target], want)
      else ErrTargetConflict
  }

  /** The simple specification: read the truth once, then create, refuse or rewrite. */
  function DirectWrite(now: map<Key, Secret>, target: Key, want: Intent): Outcome {
    if target !in now then Nil
    else
      var s := now[target];
      if !Writable(s, want.uid) then ErrTargetConflict
      else if ImmutableBlocks(s, want.dataKey, want.value) then ErrTargetImmutable
      else if Foreign(s, want.uid) then ErrTargetConflict
      else Nil
  }

  /**
   The specification in terms of the Secret's metadata: absent is created; neither labelled nor ours is a
   conflict; frozen with other data is immutable; another's is a conflict; anything else is rewritten.
   */
  lemma DirectWriteDecides(now: map<Key, Secret>, target: Key, want: Intent)
    ensures target !in now ==> DirectWrite(now, target, want) == Nil
    ensures target in now ==>
              var s := now[target];
              DirectWrite(now, target, want) ==
              if !OursToWrite(s, want.uid) then ErrTargetConflict
              else if s.immutable == Some(true) && s.data != map[want.dataKey := want.value] then ErrTargetImmutable
              else if SomebodyElses(s, want.uid) then ErrTargetConflict
              else Nil
  {
    if target in now {
      WriterTests(now[target], want.uid, want.dataKey, want.value);
    }
  }

  /** A cached copy is a past version: under the current version it is the current Secret. */
  predicate Past(now: SecretMap, target: Key, cached: Option<Stored<Secret>>) {
    cached.Some? ==>
      && Labelled(cached.value.obj)
      && (target in now && now[target].rv == cached.value.rv ==> now[target] == cached.value)
  }

  /** The cached copy leads to the same decision as the truth does. */
  predicate CacheGoodEnough(now: SecretMap, target: Key, cached: Option<Stored<Secret>>, want: Intent) {
    match cached
    case None => true
    case Some(c) =>
      && target in now
      && var s := now[target].obj;
      if c == now[target] then true
      else if ImmutableBlocks(c.obj, want.dataKey, want.value) then
        Writable(s, want.uid) && ImmutableBlocks(s, want.dataKey, want.value)
      else if Foreign(c.obj, want.uid) then
        || !Writable(s, want.uid)
        || (Foreign(s, want.uid) && !ImmutableBlocks(s, want.dataKey, want.value))
      else true
  }

  /** The cached path agrees with reading the server directly exactly when the copy is good enough. */
  lemma CachedWriteAgrees(now: SecretMap, target: Key, cached: Option<Stored<Secret>>, want: Intent)
    requires Past(now, target, cached)
    ensures CachedWrite(now, target, cached, want) == DirectWrite(Bare(now), target, want)
            <==> CacheGoodEnough(now, target, cached, want)
  {
  }

  /** What the cache shows is a past version, however far it lags. */
  lemma CacheShowsPast(w: World, target: Key)
    requires Inv(w)
    ensures w.h != [] && w.secretAt < |w.h|
    ensures Past(Now(w).secrets, target, Visible(w.h[w.secretAt].now.secrets, target))
  {
    InvValid(w);
    var cached := Visible(w.h[w.secretAt].now.secrets, target);
    if cached.Some? && target in Now(w).secrets && Now(w).secrets[target].rv == cached.value.rv {
      SameSecretVersion(w.h, w.secretAt, |w.h| - 1, target);
    }
  }

  /** Free, or labelled or controlled by `uid`, and controlled by nobody else. */
  predicate Overwritable(secrets: SecretMap, target: Key, uid: Uid) {
    target in secrets ==> OursToWrite(secrets[target].obj, uid) && !SomebodyElses(secrets[target].obj, uid)
  }

  lemma AcceptedOverwrites(k: Key, a: World, b: World, uid: Uid, t: Step)
    requires ValidHistory(b.h) && a.h != [] && t.WriteSecret? && Acts(k, a, b, Op(k, uid, t))
    ensures |b.h| > 1 && Overwritable(b.h[|b.h| - 2].now.secrets, t.target, uid)
  {
    hide ValidHistory, Rewrite;
    var n := |b.h| - 1;
    var c := b.(h := b.h[..n]);
    assert |c.h| >= |a.h|;
    LegalAt(b.h, n);
    if t.target in b.h[n - 1].now.secrets {
      WriterTests(b.h[n - 1].now.secrets[t.target].obj, uid, "", "");
    }
  }

  /** A Secret that is neither labelled nor ours is refused: as a conflict, unless a stale copy was frozen. */
  predicate StrangerRefused(w: World, target: Key, uid: Uid, r: Outcome)
    requires w.h != [] && w.secretAt < |w.h|
  {
    target in Now(w).secrets && !OursToWrite(Now(w).secrets[target].obj, uid) ==>
      && r in {ErrTargetConflict, ErrTargetImmutable}
      && (Visible(w.h[w.secretAt].now.secrets, target).None? ==> r == ErrTargetConflict)
  }

  lemma StrangerIsRefused(w: World, target: Key, want: Intent)
    requires Inv(w)
    ensures w.h != [] && w.secretAt < |w.h|
    ensures StrangerRefused(w, target, want.uid,
                            CachedWrite(Now(w).secrets, target, Visible(w.h[w.secretAt].now.secrets, target), want))
  {
    hide Inv, Visible, ControllerOf;
    CacheShowsPast(w, target);
    if target in Now(w).secrets && !OursToWrite(Now(w).secrets[target].obj, want.uid) {
      WriterTests(Now(w).secrets[target].obj, want.uid, "", "");
      var cached := Visible(w.h[w.secretAt].now.secrets, target);
      assert cached.Some? && cached.value == Now(w).secrets[target] ==> false;
    }
  }

  lemma StaleWriteAgrees(w: World, target: Key, want: Intent)
    requires Inv(w)
    ensures w.h != [] && w.secretAt < |w.h|
    ensures var cached := Visible(w.h[w.secretAt].now.secrets, target);
            CachedWrite(Now(w).secrets, target, cached, want) == DirectWrite(Bare(Now(w).secrets), target, want)
            <==> CacheGoodEnough(Now(w).secrets, target, cached, want)
  {
    hide CachedWrite, DirectWrite, CacheGoodEnough, Past;
    CacheShowsPast(w, target);
    CachedWriteAgrees(Now(w).secrets, target, Visible(w.h[w.secretAt].now.secrets, target), want);
  }

  /** A copy of a Secret that is gone is never good enough: the write fails where a direct one would create. */
  lemma DeletedUnderCache(target: Key, c: Stored<Secret>, want: Intent)
    requires Labelled(c.obj)
    ensures CachedWrite(map[], target, Some(c), want) != Nil == DirectWrite(map[], target, want)
  {
  }

  /**
   A Secret that somebody else controls is refused as such if and only if it is not both labelled and
   frozen with other data: then its immutability is reported instead.
   */
  lemma ForeignIsConflictUnlessFrozen(now: map<Key, Secret>, target: Key, want: Intent)
    requires target in now && Foreign(now[target], want.uid)
    ensures DirectWrite(now, target, want) == ErrTargetConflict
            <==> !(Labelled(now[target]) && ImmutableBlocks(now[target], want.dataKey, want.value))
    ensures DirectWrite(now, target, want) in {ErrTargetConflict, ErrTargetImmutable}
  {
  }

  /** For example an empty frozen Secret of another owner. */
  lemma FrozenForeignIsImmutable(target: Key, want: Intent)
    requires want.uid == 1
    ensures var s := BLANK.(labels := map[ManagedBy := Kvsynk8s], owners := [OwnerRef(2, true)],
            immutable := Some(true));
            Foreign(s, want.uid) && DirectWrite(map[target := s], target, want) == ErrTargetImmutable
  {
  }

  // ----- The calls a write makes, as its answers decide them -----

  function Answer(reply: Reply): Outcome {
    if reply.Done? then Nil else ErrApi(reply)
  }

  /** One attempt over the copy `from`: immutability, then ownership, then one Update. */
  predicate ApplyScript(from: Secret, rv: nat, want: Intent, cs: seq<Call>, o: Outcome) {
    if ImmutableBlocks(from, want.dataKey, want.value) then cs == [] && o == ErrTargetImmutable
    else if Foreign(from, want.uid) then cs == [] && o == ErrTargetConflict
    else |cs| == 1 && cs[0].Updated? && cs[0].from == Stored(from, rv) && o == Answer(cs[0].reply)
  }

  /** After a version conflict: one re-read and, if that copy is writable, one more attempt. */
  predicate ConflictScript(want: Intent, cs: seq<Call>, o: Outcome) {
    && cs != [] && cs[0].Looked?
    && match cs[0].r
       case Found(c) =>
         if Writable(c.obj, want.uid) then ApplyScript(c.obj, c.rv, want, cs[1..], o)
         else |cs| == 1 && o == ErrTargetConflict
       case Missing => |cs| == 1 && o == ErrApi(Gone)
       case Unreadable => |cs| == 1 && o == ErrApi(Refused)
  }

  /** After an Invalid: one re-read, which can only turn it into TargetImmutable. */
  predicate InvalidScript(want: Intent, cs: seq<Call>, o: Outcome) {
    && |cs| == 1 && cs[0].Looked?
    && o == if cs[0].r.Found? && ImmutableBlocks(cs[0].r.item.obj, want.dataKey, want.value) then ErrTargetImmutable
            else ErrApi(Invalid)
  }

  predicate UpdateScript(from: Secret, rv: nat, want: Intent, cs: seq<Call>, o: Outcome) {
    if cs == [] then ApplyScript(from, rv, want, cs, o)
    else
      && cs[0].Updated? && ApplyScript(from, rv, want, cs[..1], Answer(cs[0].reply))
      && match cs[0].reply
         case Conflict => ConflictScript(want, cs[1..], o)
         case Invalid => InvalidScript(want, cs[1..], o)
         case _ => |cs| == 1 && o == Answer(cs[0].reply)
  }

  /** After AlreadyExists: one re-read and, if that copy is writable, the update path. */
  predicate ExistsScript(want: Intent, cs: seq<Call>, o: Outcome) {
    && cs != [] && cs[0].Looked?
    && match cs[0].r
       case Found(c) =>
         if Writable(c.obj, want.uid) then UpdateScript(c.obj, c.rv, want, cs[1..], o)
         else |cs| == 1 && o == ErrTargetConflict
       case Missing => |cs| == 1 && o == ErrApi(Gone)
       case Unreadable => |cs| == 1 && o == ErrApi(Refused)
  }

  predicate CreateScript(want: Intent, cs: seq<Call>, o: Outcome) {
    && cs != [] && cs[0].Created?
    && if cs[0].reply.AlreadyExists? then ExistsScript(want, cs[1..], o)
       else |cs| == 1 && o == Answer(cs[0].reply)
  }

  /** All that CreateOrUpdate does: the calls `cs`, answered as they record, and the outcome `o`. */
  predicate WriteScript(want: Intent, cs: seq<Call>, o: Outcome) {
    && cs != [] && cs[0].Looked?
    && match cs[0].r
       case Found(c) =>
         if Writable(c.obj, want.uid) then UpdateScript(c.obj, c.rv, want, cs[1..], o)
         else |cs| == 1 && o == ErrTargetConflict
       case Missing => CreateScript(want, cs[1..], o)
       case Unreadable => |cs| == 1 && o == ErrApi(Refused)
  }

  /** What the reads showed is what the target held at an entry from `since` on. */
  predicate OnRecord(h: seq<Entry>, since: nat, target: Key, cs: seq<Call>) {
    forall i | 0 <= i < |cs| && cs[i].Looked? && cs[i].r.Found? :: LookedAt(h, since, target, cs[i].r.item, cs[i].at)
  }

  predicate LookedAt(h: seq<Entry>, since: nat, target: Key, item: Stored<Secret>, at: nat) {
    since <= at < |h| && target in h[at].now.secrets && h[at].now.secrets[target] == item
  }

  lemma OnRecordAll(g: seq<Entry>, h: seq<Entry>, since: nat, later: nat, target: Key, a: seq<Call>, b: seq<Call>)
    requires g <= h && since <= later && OnRecord(g, since, target, a) && OnRecord(h, later, target, b)
    ensures OnRecord(h, since, target, a + b)
  {
    forall i | 0 <= i < |a + b| && (a + b)[i].Looked? && (a + b)[i].r.Found?
      ensures LookedAt(h, since, target, (a + b)[i].r.item, (a + b)[i].at)
    {
      if i < |a| {
        assert LookedAt(g, since, target, a[i].r.item, a[i].at);
      } else {
        assert LookedAt(h, later, target, b[i - |a|].r.item, b[i - |a|].at);
      }
    }
  }

  /** An accepted mutation. */
  predicate Accepted(c: Call) {
    !c.Looked? && c.reply.Done?
  }

  /** A call that failed or was refused, a read that found nothing included. */
  predicate Unsuccessful(c: Call) {
    if c.Looked? then !c.r.Found? else !c.reply.Done?
  }

  /** A copy the write has looked at explains why it was refused. */
  predicate RefusedFor(c: Call, want: Intent, o: Outcome) {
    && c.Looked? && c.r.Found?
    && match o
       case ErrTargetConflict => !Writable(c.r.item.obj, want.uid) || Foreign(c.r.item.obj, want.uid)
       case ErrTargetImmutable => ImmutableBlocks(c.r.item.obj, want.dataKey, want.value)
       case _ => false
  }

  /** Why a write ended as it did. */
  predicate Caused(want: Intent, cs: seq<Call>, o: Outcome) {
    match o
    case Nil => cs != [] && Accepted(cs[|cs| - 1]) && forall i | 0 <= i < |cs| - 1 :: !Accepted(cs[i])
    case ErrApi(_) =>
      && (exists i | 0 <= i < |cs| :: Unsuccessful(cs[i]))
      && forall i | 0 <= i < |cs| :: !Accepted(cs[i])
    case _ =>
      && (exists i | 0 <= i < |cs| :: RefusedFor(cs[i], want, o))
      && forall i | 0 <= i < |cs| :: !Accepted(cs[i])
  }

  /**
   Every outcome has its cause among the calls: nil is the last call, accepted after none before it; a
   conflict or an immutable target is a copy that was looked at; any other error is a failed call.
   */
  lemma OutcomeHasCause(want: Intent, cs: seq<Call>, o: Outcome)
    requires WriteScript(want, cs, o)
    ensures Caused(want, cs, o)
  {
    hide ImmutableBlocks, Foreign, Writable, Caused, UpdateScript, ExistsScript;
    if cs[0].r.Found? && Writable(cs[0].r.item.obj, want.uid) {
      UpdateHasCause(cs[..1], cs[0].r.item, want, cs[1..], o);
      assert cs == cs[..1] + cs[1..];
    } else if cs[0].r.Missing? && cs[1].reply.AlreadyExists? {
      assert cs[1..][1..] == cs[2..];
      ExistsHasCause(cs, want, o);
    } else {
      ShortHasCause(want, cs, o);
    }
  }

  lemma ShortHasCause(want: Intent, cs: seq<Call>, o: Outcome)
    requires cs != [] && forall i | 0 <= i < |cs| - 1 :: Unsuccessful(cs[i])
    requires var last := cs[|cs| - 1];
             || (o == ErrTargetConflict && RefusedFor(last, want, o))
             || (o.ErrApi? && Unsuccessful(last))
             || (o == Nil && Accepted(last))
    ensures Caused(want, cs, o)
  {
  }

  lemma ExistsHasCause(cs: seq<Call>, want: Intent, o: Outcome)
    requires |cs| >= 2 && Unsuccessful(cs[0]) && Unsuccessful(cs[1]) && ExistsScript(want, cs[2..], o)
    ensures Caused(want, cs, o)
  {
    hide ImmutableBlocks, Foreign, Writable, UpdateScript;
    if cs[2].r.Found? && Writable(cs[2].r.item.obj, want.uid) {
      UpdateHasCause(cs[..3], cs[2].r.item, want, cs[2..][1..], o);
      assert cs == cs[..3] + cs[2..][1..];
    } else {
      ShortHasCause(want, cs, o);
    }
  }

  /** The update path after the calls `a`, of which the last showed the copy it works on. */
  lemma UpdateHasCause(a: seq<Call>, c: Stored<Secret>, want: Intent, cs: seq<Call>, o: Outcome)
    requires a != [] && a[|a| - 1].Looked? && a[|a| - 1].r == Found(c)
    requires forall i | 0 <= i < |a| :: !Accepted(a[i])
    requires UpdateScript(c.obj, c.rv, want, cs, o)
    ensures Caused(want, a + cs, o)
  {
    hide ImmutableBlocks, Foreign, Writable;
    var all := a + cs;
    assert all[|a| - 1] == a[|a| - 1];
    assert forall i | 0 <= i < |cs| :: all[|a| + i] == cs[i];
    if cs != [] && cs[0].reply == Conflict && |cs| > 2 {
      assert cs[1..][1..][0] == cs[2] && all[|a| + 2] == cs[2];
    }
    assert cs != [] ==> all[|a|] == cs[0];
    assert |cs| > 1 ==> all[|a| + 1] == cs[1];
  }

  /** The answers decide: the same calls and answers never end in two outcomes. */
  lemma AnswersDecide(want: Intent, cs: seq<Call>, o: Outcome, p: Outcome)
    requires WriteScript(want, cs, o) && WriteScript(want, cs, p)
    ensures o == p
  {
  }

  // ----- The writer -----

  class SecretWriter {
    const server: Server

    constructor (server: Server)
      ensures this.server == server
    {
      this.server := server;
    }

    method CreateOrUpdate(k: Key, uid: Uid, t: Step) returns (r: Outcome, ghost cs: seq<Call>)
      requires Inv(server.w) && MayWrite(server.w, k, uid, t)
      modifies server`w, server`gets, server`creates, server`updates, server`failed, server`calls
      ensures Inv(server.w) && server.failed == old(server.failed)
      ensures server.calls == old(server.calls) + cs && WriteScript(t.want, cs, r)
      ensures OnRecord(server.w.h, old(server.w).secretAt, t.target, cs)
      ensures r.Nil? ==> Acts(k, old(server.w), server.w, Op(k, uid, t))
      ensures !r.Nil? ==> Later(k, old(server.w), server.w)
      ensures server.gets <= old(server.gets) + 3
      ensures server.creates <= old(server.creates) + 1
      ensures server.updates <= old(server.updates) + 2
      ensures server.quiet && server.uncached ==>
                var w := old(server.w);
                r == CachedWrite(Now(w).secrets, t.target, Visible(w.h[w.secretAt].now.secrets, t.target), t.want)
      ensures server.quiet && server.uncached ==>
                var w := old(server.w);
                var cached := Visible(w.h[w.secretAt].now.secrets, t.target);
                r == DirectWrite(Bare(Now(w).secrets), t.target, t.want)
                <==> CacheGoodEnough(Now(w).secrets, t.target, cached, t.want)
      // A Secret that is neither labelled nor ours is never written over, and is reported as a conflict.
      ensures r.Nil? ==> |server.w.h| > 1 && Overwritable(server.w.h[|server.w.h| - 2].now.secrets, t.target, uid)
      ensures server.quiet && server.uncached ==>
                StrangerRefused(old(server.w), t.target, uid, r)
      ensures server.quiet && !r.Nil? ==> server.w == old(server.w)
      ensures server.quiet && r.Nil? ==> server.w == Rewritten(old(server.w), k, uid, t)
    {
      hide Inv, ValidHistory, HoldsSecret, MayWrite, Later, Acts, Rewrite, Writable, ImmutableBlocks, UpdateOutcome,
           Commit, OursToWrite, Overwritable, StrangerRefused, Visible, Now, DirectWrite, CacheGoodEnough, UpdateScript,
           CreateScript, OnRecord;
      MayWriteBasics(server.w, k, uid, t);
      StaleWriteAgrees(server.w, t.target, t.want);
      StrangerIsRefused(server.w, t.target, t.want);
      var existing := server.GetSecret(k, t.target, true);
      InvValid(server.w);
      MayWriteLater(old(server.w), server.w, k, uid, t);
      MayWriteBasics(server.w, k, uid, t);
      ghost var mid := server.w;
      LaterOnward(k, old(server.w), mid);
      cs := [Looked(existing, mid.secretAt)];
      VisibleOnRecord(mid, old(server.w).secretAt, t.target, existing);
      if existing.Missing? {
        ghost var more;
        r, more := Create(k, uid, t);
        OnRecordAll(mid.h, server.w.h, old(server.w).secretAt, mid.secretAt, t.target, cs, more);
        cs := cs + more;
        if r.Nil? {
          ActsAfter(k, old(server.w), mid, server.w, Op(k, uid, t));
        } else {
          LaterTransitive(k, old(server.w), mid, server.w);
        }
      } else if existing.Unreadable? {
        r := ErrApi(Refused);
      } else if !Writable(existing.item.obj, uid) {
        r := ErrTargetConflict;
      } else {
        var obj := new SecretObject.Decode(existing.item);
        ghost var more;
        r, more := Update(k, uid, obj, t);
        OnRecordAll(mid.h, server.w.h, old(server.w).secretAt, mid.secretAt, t.target, cs, more);
        cs := cs + more;
        if r.Nil? {
          ActsAfter(k, old(server.w), mid, server.w, Op(k, uid, t));
        } else {
          LaterTransitive(k, old(server.w), mid, server.w);
        }
      }
      if r.Nil? {
        InvValid(server.w);
        AcceptedOverwrites(k, old(server.w), server.w, uid, t);
      }
    }

    method Create(k: Key, uid: Uid, t: Step) returns (r: Outcome, ghost cs: seq<Call>)
      requires Inv(server.w) && MayWrite(server.w, k, uid, t)
      modifies server`w, server`gets, server`creates, server`updates, server`failed, server`calls
      ensures Inv(server.w) && server.failed == old(server.failed)
      ensures server.calls == old(server.calls) + cs && CreateScript(t.want, cs, r)
      ensures OnRecord(server.w.h, old(server.w).secretAt, t.target, cs) && old(server.w).h <= server.w.h
      ensures r.Nil? ==> Acts(k, old(server.w), server.w, Op(k, uid, t))
      ensures !r.Nil? ==> Later(k, old(server.w), server.w)
      ensures server.gets <= old(server.gets) + 2
      ensures server.creates == old(server.creates) + 1
      ensures server.updates <= old(server.updates) + 2
      ensures server.quiet && server.uncached ==> r == CachedWrite(Now(old(server.w)).secrets, t.target, None, t.want)
      ensures server.quiet && !r.Nil? ==> server.w == old(server.w)
      ensures server.quiet && r.Nil? ==> server.w == Rewritten(old(server.w), k, uid, t)
    {
      hide Inv, ValidHistory, HoldsSecret, MayWrite, Later, Acts, ImmutableBlocks, UpdateOutcome, ExistsScript,
           OnRecord;
      MayWriteBasics(server.w, k, uid, t);
      var obj := new SecretObject.Blank();
      obj.Populate(t.want);
      var ok := obj.SetController(uid);
      var reply := server.Create(k, uid, obj.Value(), t);
      ghost var mid := server.w;
      cs := [Created(reply)];
      NothingOnRecord(mid.h, old(server.w).secretAt, t.target, cs);
      if reply.AlreadyExists? {
        LaterOnward(k, old(server.w), mid);
        ghost var more;
        r, more := RecoverAlreadyExists(k, uid, t);
        OnRecordAll(mid.h, server.w.h, old(server.w).secretAt, mid.secretAt, t.target, cs, more);
        cs := cs + more;
        if r.Nil? {
          ActsAfter(k, old(server.w), mid, server.w, Op(k, uid, t));
        } else {
          LaterTransitive(k, old(server.w), mid, server.w);
        }
      } else {
        r := if reply.Done? then Nil else ErrApi(reply);
      }
      Grows(k, old(server.w), server.w, Op(k, uid, t));
    }

    method RecoverAlreadyExists(k: Key, uid: Uid, t: Step) returns (r: Outcome, ghost cs: seq<Call>)
      requires Inv(server.w) && MayWrite(server.w, k, uid, t)
      modifies server`w, server`gets, server`creates, server`updates, server`failed, server`calls
      ensures Inv(server.w) && server.failed == old(server.failed)
      ensures server.calls == old(server.calls) + cs && ExistsScript(t.want, cs, r)
      ensures OnRecord(server.w.h, old(server.w).secretAt, t.target, cs) && old(server.w).h <= server.w.h
      ensures r.Nil? ==> Acts(k, old(server.w), server.w, Op(k, uid, t))
      ensures !r.Nil? ==> Later(k, old(server.w), server.w)
      ensures server.gets <= old(server.gets) + 2
      ensures server.creates == old(server.creates)
      ensures server.updates <= old(server.updates) + 2
      ensures server.quiet && server.uncached && t.target in Now(old(server.w)).secrets ==>
                r == CachedWrite(Now(old(server.w)).secrets, t.target, None, t.want)
      ensures server.quiet && !r.Nil? ==> server.w == old(server.w)
      ensures server.quiet && r.Nil? ==> server.w == Rewritten(old(server.w), k, uid, t)
    {
      hide Inv, ValidHistory, HoldsSecret, MayWrite, Later, Acts, Rewrite, Writable, ImmutableBlocks, UpdateOutcome,
           ApplyOutcome, Commit, UpdateScript, OnRecord, Visible;
      MayWriteBasics(server.w, k, uid, t);
      var current := server.ReRead(k, t.target);
      InvValid(server.w);
      MayWriteLater(old(server.w), server.w, k, uid, t);
      MayWriteBasics(server.w, k, uid, t);
      ghost var mid := server.w;
      LaterOnward(k, old(server.w), mid);
      cs := [Looked(current, if server.uncached then |mid.h| - 1 else mid.secretAt)];
      ReReadOnRecord(mid, old(server.w).secretAt, t.target, current, server.uncached);
      if !current.Found? {
        r := ErrApi(if current.Missing? then Gone else Refused);
      } else if Writable(current.item.obj, uid) {
        var obj := new SecretObject.Decode(current.item);
        ghost var more;
        r, more := Update(k, uid, obj, t);
        OnRecordAll(mid.h, server.w.h, old(server.w).secretAt, mid.secretAt, t.target, cs, more);
        cs := cs + more;
        if r.Nil? {
          ActsAfter(k, old(server.w), mid, server.w, Op(k, uid, t));
        } else {
          LaterTransitive(k, old(server.w), mid, server.w);
        }
      } else {
        r := ErrTargetConflict;
      }
      Grows(k, old(server.w), server.w, Op(k, uid, t));
    }

    method Update(k: Key, uid: Uid, existing: SecretObject, t: Step) returns (r: Outcome, ghost cs: seq<Call>)
      requires Inv(server.w) && MayWrite(server.w, k, uid, t)
      requires HoldsSecret(server.w, t.target, Stored(existing.Value(), existing.rv)) && Writable(existing.Value(), uid)
      modifies server`w, server`gets, server`creates, server`updates, server`failed, server`calls, existing
      ensures Inv(server.w) && server.failed == old(server.failed)
      ensures server.calls == old(server.calls) + cs
      ensures UpdateScript(old(existing.Value()), old(existing.rv), t.want, cs, r)
      ensures OnRecord(server.w.h, old(server.w).secretAt, t.target, cs) && old(server.w).h <= server.w.h
      ensures r.Nil? ==> Acts(k, old(server.w), server.w, Op(k, uid, t))
      ensures !r.Nil? ==> Later(k, old(server.w), server.w)
      ensures server.gets <= old(server.gets) + 1
      ensures server.creates == old(server.creates)
      ensures server.updates <= old(server.updates) + 2
      ensures server.quiet && server.uncached ==>
                r == UpdateOutcome(Now(old(server.w)).secrets, t.target,
                                   Stored(old(existing.Value()), old(existing.rv)), t.want)
      ensures server.quiet && !r.Nil? ==> server.w == old(server.w)
      ensures server.quiet && r.Nil? ==> server.w == Rewritten(old(server.w), k, uid, t)
    {
      hide Inv, ValidHistory, HoldsSecret, MayWrite, Later, Acts, Rewrite, Writable, ImmutableBlocks, Commit,
           ConflictScript, InvalidScript, OnRecord, Foreign;
      MayWriteBasics(server.w, k, uid, t);
      r, cs := ApplyUpdate(k, uid, existing, t);
      ghost var mid := server.w;
      NothingOnRecord(mid.h, old(server.w).secretAt, t.target, cs);
      if !r.Nil? { MayWriteBasics(mid, k, uid, t); }
      if r == ErrApi(Conflict) {
        LaterOnward(k, old(server.w), mid);
        ghost var more;
        r, more := RecoverConflict(k, uid, t);
        OnRecordAll(mid.h, server.w.h, old(server.w).secretAt, mid.secretAt, t.target, cs, more);
        assert (cs + more)[..1] == cs && (cs + more)[1..] == more;
        cs := cs + more;
        if r.Nil? {
          ActsAfter(k, old(server.w), mid, server.w, Op(k, uid, t));
        } else {
          LaterTransitive(k, old(server.w), mid, server.w);
        }
      } else if r == ErrApi(Invalid) {
        LaterOnward(k, old(server.w), mid);
        ghost var more;
        r, more := ClassifyInvalid(k, t, r);
        OnRecordAll(mid.h, server.w.h, old(server.w).secretAt, mid.secretAt, t.target, cs, more);
        assert (cs + more)[..1] == cs && (cs + more)[1..] == more;
        cs := cs + more;
        LaterTransitive(k, old(server.w), mid, server.w);
      } else {
        assert cs[..] == cs;
        assert cs != [] ==> cs[..1] == cs;
      }
      Grows(k, old(server.w), server.w, Op(k, uid, t));
    }

    method ApplyUpdate(k: Key, uid: Uid, existing: SecretObject, t: Step) returns (r: Outcome, ghost cs: seq<Call>)
      requires Inv(server.w) && MayWrite(server.w, k, uid, t)
      requires HoldsSecret(server.w, t.target, Stored(existing.Value(), existing.rv)) && Writable(existing.Value(), uid)
      modifies server`w, server`updates, server`calls, existing
      ensures Inv(server.w)
      ensures server.calls == old(server.calls) + cs && (forall i | 0 <= i < |cs| :: !cs[i].Looked?)
      ensures ApplyScript(old(existing.Value()), old(existing.rv), t.want, cs, r)
      ensures r.Nil? ==> Acts(k, old(server.w), server.w, Op(k, uid, t))
      ensures !r.Nil? ==> Later(k, old(server.w), server.w) && MayWrite(server.w, k, uid, t)
      ensures server.updates <= old(server.updates) + 1
      ensures server.quiet ==>
                r == ApplyOutcome(Now(old(server.w)).secrets, t.target,
                                  Stored(old(existing.Value()), old(existing.rv)), t.want)
      ensures server.quiet && !r.Nil? ==> server.w == old(server.w)
      ensures server.quiet && r.Nil? ==> server.w == Rewritten(old(server.w), k, uid, t)
    {
      hide Inv, ValidHistory, MayWrite, Later, Acts, HoldsSecret;
      InvValid(server.w);
      MayWriteBasics(server.w, k, uid, t);
      LaterReflexive(k, server.w);
      cs := [];
      ghost var before := Stored(existing.Value(), existing.rv);
      if ImmutableBlocks(existing.Value(), t.want.dataKey, t.want.value) {
        r := ErrTargetImmutable;
        return;
      }
      existing.Populate(t.want);
      var ok := existing.SetController(uid);
      if !ok {
        r := ErrTargetConflict;
        return;
      }
      var reply := server.Update(k, uid, before, existing.rv, existing.Value(), t);
      if server.quiet && reply.Done? { HeldIsCurrent(old(server.w), t.target, before); }
      cs := [Updated(before, reply)];
      r := if reply.Done? then Nil else ErrApi(reply);
    }

    method RecoverConflict(k: Key, uid: Uid, t: Step) returns (r: Outcome, ghost cs: seq<Call>)
      requires Inv(server.w) && MayWrite(server.w, k, uid, t)
      modifies server`w, server`gets, server`creates, server`updates, server`failed, server`calls
      ensures Inv(server.w) && server.failed == old(server.failed)
      ensures server.calls == old(server.calls) + cs && ConflictScript(t.want, cs, r)
      ensures OnRecord(server.w.h, old(server.w).secretAt, t.target, cs) && old(server.w).h <= server.w.h
      ensures r.Nil? ==> Acts(k, old(server.w), server.w, Op(k, uid, t))
      ensures !r.Nil? ==> Later(k, old(server.w), server.w)
      ensures server.gets == old(server.gets) + 1
      ensures server.creates == old(server.creates)
      ensures server.updates <= old(server.updates) + 1
      ensures server.quiet && server.uncached && t.target in Now(old(server.w)).secrets ==>
                var now := Now(old(server.w)).secrets;
                r == if Writable(now[t.target].obj, uid) then ApplyOutcome(now, t.target, now[t.target], t.want)
                else ErrTargetConflict
      ensures server.quiet && !r.Nil? ==> server.w == old(server.w)
      ensures server.quiet && r.Nil? ==> server.w == Rewritten(old(server.w), k, uid, t)
    {
      hide Inv, ValidHistory, HoldsSecret, MayWrite, Later, Acts, Rewrite, Writable, ImmutableBlocks, UpdateOutcome,
           ApplyOutcome, Commit, ApplyScript, OnRecord, Visible;
      MayWriteBasics(server.w, k, uid, t);
      var current := server.ReRead(k, t.target);
      InvValid(server.w);
      MayWriteLater(old(server.w), server.w, k, uid, t);
      MayWriteBasics(server.w, k, uid, t);
      ghost var mid := server.w;
      LaterOnward(k, old(server.w), mid);
      cs := [Looked(current, if server.uncached then |mid.h| - 1 else mid.secretAt)];
      ReReadOnRecord(mid, old(server.w).secretAt, t.target, current, server.uncached);
      if !current.Found? {
        r := ErrApi(if current.Missing? then Gone else Refused);
      } else if !Writable(current.item.obj, uid) {
        r := ErrTargetConflict;
      } else {
        var obj := new SecretObject.Decode(current.item);
        ghost var more;
        r, more := ApplyUpdate(k, uid, obj, t);
        if r.Nil? {
          ActsAfter(k, old(server.w), mid, server.w, Op(k, uid, t));
        } else {
          LaterTransitive(k, old(server.w), mid, server.w);
        }
        Grows(k, mid, server.w, Op(k, uid, t));
        NothingOnRecord(server.w.h, mid.secretAt, t.target, more);
        OnRecordAll(mid.h, server.w.h, old(server.w).secretAt, mid.secretAt, t.target, cs, more);
        cs := cs + more;
      }
      Grows(k, old(server.w), server.w, Op(k, uid, t));
    }

    /** Never writes: names an Invalid rejection that an immutable Secret explains. */
    method ClassifyInvalid(k: Key, t: Step, invalid: Outcome) returns (r: Outcome, ghost cs: seq<Call>)
      requires Inv(server.w) && t.WriteSecret?
      modifies server`w, server`gets, server`failed, server`calls
      ensures Inv(server.w) && server.failed == old(server.failed) && Later(k, old(server.w), server.w)
      ensures server.calls == old(server.calls) + cs && (invalid == ErrApi(Invalid) ==> InvalidScript(t.want, cs, r))
      ensures OnRecord(server.w.h, old(server.w).secretAt, t.target, cs) && old(server.w).h <= server.w.h
      ensures server.gets == old(server.gets) + 1
      ensures r in {invalid, ErrTargetImmutable}
      ensures server.uncached && r == ErrTargetImmutable && r != invalid ==>
                && Now(server.w).secrets.Keys >= {t.target}
                && ImmutableBlocks(Now(server.w).secrets[t.target].obj, t.want.dataKey, t.want.value)
      ensures server.quiet ==> server.w == old(server.w)
    {
      hide Inv, ValidHistory, HoldsSecret, Later, ImmutableBlocks, OnRecord, Visible;
      var current := server.ReRead(k, t.target);
      InvValid(server.w);
      LaterOnward(k, old(server.w), server.w);
      cs := [Looked(current, if server.uncached then |server.w.h| - 1 else server.w.secretAt)];
      ReReadOnRecord(server.w, old(server.w).secretAt, t.target, current, server.uncached);
      r := invalid;
      if current.Found? && ImmutableBlocks(current.item.obj, t.want.dataKey, t.want.value) {
        r := ErrTargetImmutable;
      }
    }
  }

  lemma LaterOnward(k: Key, a: World, b: World)
    requires Later(k, a, b)
    ensures a.h <= b.h && a.secretAt <= b.secretAt
  {
  }

  lemma Grows(k: Key, a: World, b: World, who: Actor)
    requires Later(k, a, b) || Acts(k, a, b, who)
    ensures a.h <= b.h
  {
    if !Later(k, a, b) {
      var c := b.(h := b.h[..|b.h| - 1]);
      assert c.h <= b.h;
    }
  }

  lemma NothingOnRecord(h: seq<Entry>, since: nat, target: Key, cs: seq<Call>)
    requires forall i | 0 <= i < |cs| :: !cs[i].Looked?
    ensures OnRecord(h, since, target, cs)
  {
  }

  lemma VisibleOnRecord(w: World, since: nat, target: Key, r: Got<Stored<Secret>>)
    requires since <= w.secretAt < |w.h|
    requires r.Found? ==> Visible(w.h[w.secretAt].now.secrets, target) == Some(r.item)
    ensures OnRecord(w.h, since, target, [Looked(r, w.secretAt)])
  {
  }

  lemma ReReadOnRecord(w: World, since: nat, target: Key, r: Got<Stored<Secret>>, uncached: bool)
    requires since <= w.secretAt < |w.h|
    requires r.Found? && uncached ==> target in Now(w).secrets && r.item == Now(w).secrets[target]
    requires r.Found? && !uncached ==> Visible(w.h[w.secretAt].now.secrets, target) == Some(r.item)
    ensures OnRecord(w.h, since, target, [Looked(r, if uncached then |w.h| - 1 else w.secretAt)])
  {
  }

  /** The world after one accepted write of `t` on top of whatever the target holds now. */
  function Rewritten(w: World, k: Key, uid: Uid, t: Step): World
    requires w.h != [] && t.WriteSecret?
  {
    var now := Now(w);
    Commit(w, Op(k, uid, t),
           now.(secrets := now.secrets[t.target := Stored(Rewrite(Prior(now.secrets, t.target), t.want), |w.h|)]))
  }

  lemma ActsAfter(k: Key, a: World, b: World, c: World, who: Actor)
    requires Later(k, a, b) && Acts(k, b, c, who)
    ensures Acts(k, a, c, who)
  {
    LaterTransitive(k, a, b, c.(h := c.h[..|c.h| - 1]));
  }
}
