/**
 The sync engine: what a SecretSync should report and what its target should hold, given the
 target as it was read and the latest version in the vault. It changes the Secret it is handed.
 */
module Engine {
  import opened Objects
  import opened History
  import opened Api
  import opened Writer

  /** What each way of failing is reported as. `managed`: the target is an earlier write of this SecretSync. */
  predicate Classified(e: ReadError, managed: bool, r: Reason) {
    && (r == SourceDeleted <==> e.NotFound? && managed)
    && (r == SecretNotFound <==> e.NotFound? && !managed)
    && (r == SourceDisabled <==> e.Disabled?)
    && (r == AccessDenied <==> e.Denied?)
    && (r == AuthenticationFailed <==> e.AuthFailure?)
    && (r == TransientError <==> e.Transient? || e.Unclassified?)
  }

  function ClassifyReaderError(e: ReadError, managed: bool): (r: Reason)
    ensures Classified(e, managed, r)
  {
    match e
    case NotFound => if managed then SourceDeleted else SecretNotFound
    case Disabled => SourceDisabled
    case Denied => AccessDenied
    case AuthFailure => AuthenticationFailed
    case Transient => TransientError
    case Unclassified => TransientError
  }

  /** One of the reasons that blame the vault. */
  predicate FromVault(r: Reason) {
    r in {SourceDeleted, SecretNotFound, SourceDisabled, AccessDenied, AuthenticationFailed, TransientError}
  }

  /** Labelled, and controlled by `uid`. */
  predicate OursAlready(existing: Option<Secret>, uid: Uid) {
    && existing.Some?
    && ManagedBy in existing.value.labels && existing.value.labels[ManagedBy] == Kvsynk8s
    && var owners := existing.value.owners;
       exists i: nat | i < |owners| :: FirstController(owners, i) && owners[i].uid == uid
  }

  /** A target this SecretSync must not touch. */
  predicate Taken(ss: SecretSync, existing: Option<Secret>) {
    existing.Some? && (!Labelled(existing.value) || Foreign(existing.value, ss.uid))
  }

  /** A target that is verifiably an earlier write of this SecretSync. */
  predicate Managed(ss: SecretSync, existing: Option<Secret>) {
    existing.Some? && Labelled(existing.value) && ControlledBy(existing.value, ss.uid)
  }

  /** The idempotent skip: the target already is what the vault asks for. */
  predicate UpToDate(ss: SecretSync, existing: Option<Secret>, v: VaultVersion) {
    && Managed(ss, existing)
    && VersionOf(existing.value) == v.version
    && DataMatches(existing.value, DataKey(ss), v.value)
  }

  /** The last known good values, carried forward. */
  function Carried(ss: SecretSync): Status {
    Status(Unset, NoReason, ss.status.lastSync, ss.status.syncedVersion, ss.generation, [])
  }

  function Failed(ss: SecretSync, reason: Reason): Status {
    Carried(ss).(state := Failing, reason := reason)
  }

  function Succeeded(ss: SecretSync, version: string, now: nat): Status {
    Carried(ss).(state := InSync, syncedVersion := version, lastSync := Some(now))
  }

  /** The status a sync attempt computes from the target, the vault's answer and the time. */
  function Verdict(ss: SecretSync, existing: Option<Secret>, read: VaultRead, now: nat): Status {
    if Taken(ss, existing) then Failed(ss, TargetConflict)
    else
      match read
      case ReadFailed(e) => Failed(ss, ClassifyReaderError(e, Managed(ss, existing)))
      case ReadOk(v) => Succeeded(ss, v.version, now)
  }

  /**
   The verdict in terms of the target's metadata and the vault's answer. A target without the label or of
   another controller is a conflict, whatever the vault says; a failed read is classified; any other
   read is a success at its version; and a failure keeps the last known good values.
   */
  lemma VerdictDecides(ss: SecretSync, existing: Option<Secret>, read: VaultRead, now: nat)
    ensures var s := Verdict(ss, existing, read, now);
            && s.observedGeneration == ss.generation
            && (s.state == Failing ==>
                  && s.lastSync == ss.status.lastSync
                  && s.syncedVersion == ss.status.syncedVersion)
            && if (existing.Some?
                   && (!(ManagedBy in existing.value.labels && existing.value.labels[ManagedBy] == Kvsynk8s)
                       || SomebodyElses(existing.value, ss.uid)))
               then s.state == Failing && s.reason == TargetConflict
               else match read
                    case ReadFailed(e) => s.state == Failing && Classified(e, OursAlready(existing, ss.uid), s.reason)
                    case ReadOk(v) =>
                      && s.state == InSync && s.reason == NoReason
                      && s.syncedVersion == v.version && s.lastSync == Some(now)
  {
    if existing.Some? {
      WriterTests(existing.value, ss.uid, "", "");
      ControllerIsTheFirst(existing.value.owners, ss.uid);
    }
    ManagedIsOurs(ss, existing);
    hide ControllerOf, SomebodyElses, OursAlready;
  }

  lemma ManagedIsOurs(ss: SecretSync, existing: Option<Secret>)
    ensures Managed(ss, existing) <==> OursAlready(existing, ss.uid)
  {
    if existing.Some? {
      ControllerIsTheFirst(existing.value.owners, ss.uid);
    }
  }

  /** The Secret the engine builds in memory on its write path. */
  function Built(s: Secret, want: Intent): Secret {
    Populate(s, want).(owners := [OwnerRef(want.uid, true)])
  }

  /** An optional in-memory Secret as a value. */
  function Held(o: SecretObject?): Option<Secret>
    reads o
  {
    if o == null then None else Some(o.Value())
  }

  lemma UpToDateIsExact(ss: SecretSync, existing: Option<Secret>, v: VaultVersion)
    requires UpToDate(ss, existing, v)
    ensures Exact(existing.value, IntentOf(ss, v.value, v.version))
  {
    DataMatchesExactly(existing.value, DataKey(ss), v.value);
  }

  /** The engine's write path: stamps the Secret it was handed, or a new one. */
  method Fill(existing: SecretObject?, want: Intent) returns (desired: SecretObject)
    modifies existing
    ensures desired.Value() == Built(if existing == null then BLANK else old(Held(existing)).value, want)
    ensures existing != null ==> desired == existing && desired.rv == old(existing.rv)
    ensures existing == null ==> fresh(desired)
  {
    if existing == null {
      desired := new SecretObject.Blank();
    } else {
      desired := existing;
    }
    desired.Populate(want);
    desired.owners := [OwnerRef(want.uid, true)];
  }

  class SyncEngine {
    const server: Server
    const reader: bool

    constructor (server: Server, reader: bool)
      ensures this.server == server && this.reader == reader
    {
      this.server, this.reader := server, reader;
    }

    /**
     `seen` is the instant of the vault read, `stamped` that of the sync time. On success `desired` is the
     object that was passed in, now changed in place, or a new one; on any failure it is the untouched input.
     */
    method Sync(k: Key, ss: SecretSync, existing: SecretObject?)
      returns (ok: bool, status: Status, desired: SecretObject?, read: VaultRead, seen: nat,
               stamped: nat)
      requires Inv(server.w)
      modifies server`w, server`answers, existing
      ensures Inv(server.w) && Later(k, old(server.w), server.w)
      ensures ok <==> reader
      ensures server.answers == old(server.answers) + if ok && !Taken(ss, old(Held(existing))) then [read] else []
      ensures !ok || status.state == Failing ==> desired == existing && Held(existing) == old(Held(existing))
      ensures ok ==> status == Verdict(ss, old(Held(existing)), read, if status.lastSync.Some?
              then status.lastSync.value else 0)
      ensures ok && read.ReadOk? && status.state == InSync ==>
                && seen < |server.w.h| && Latest(server.w.h[seen].now.vault, ss.source) == Some(read.version)
                && |old(server.w).h| <= seen + 1
                && seen <= stamped < |server.w.h| && status.lastSync == Some(server.w.h[stamped].now.clock)
                && desired != null
                && (existing != null ==> desired == existing && desired.rv == old(existing.rv))
                && (existing == null ==> fresh(desired))
                && desired.Value() ==
                   if UpToDate(ss, old(Held(existing)), read.version) then old(Held(existing)).value
                   else Built(if existing == null then BLANK else old(Held(existing)).value,
                              IntentOf(ss, read.version.value, read.version.version))
      ensures server.quiet ==> server.w == old(server.w)
      ensures server.quiet && ok ==>
                var w := old(server.w);
                status == Verdict(ss, old(Held(existing)),
                                  match Latest(Now(w).vault,
                                      ss.source) { case Some(v) => ReadOk(v) case None => ReadFailed(NotFound) },
                                  Now(w).clock)
    {
      hide Inv, ValidHistory, Later, Latest, ControllerOf, DataMatches, VersionOf, ClassifyReaderError, DataKey, Built,
           IntentOf, ClockRead, Labelled, ControlledBy;
      LaterReflexive(k, server.w);
      desired, read, seen, stamped := existing, ReadFailed(NotFound), 0, 0;
      status := Carried(ss);
      ok := reader;
      if !reader {
        return;
      }
      var labelled := existing != null && Labelled(existing.Value());
      if existing != null && !labelled {
        status := status.(state := Failing, reason := TargetConflict);
        return;
      }
      if labelled {
        var c := ControllerOf(existing.owners);
        if c.Some? && c.value != ss.uid {
          status := status.(state := Failing, reason := TargetConflict);
          return;
        }
      }
      var managed := labelled && ControlledBy(existing.Value(), ss.uid);

      ghost var before := server.w;
      read := server.ReadVault(k, ss.source);
      InvValid(server.w);
      LaterGrows(k, before, server.w);
      seen := |server.w.h| - 1;
      ghost var atRead := server.w;
      if read.ReadFailed? {
        status := status.(state := Failing, reason := ClassifyReaderError(read.error, managed));
        return;
      }
      var value, version := read.version.value, read.version.version;

      if managed && VersionOf(existing.Value()) == version && DataMatches(existing.Value(), DataKey(ss), value) {
        status := status.(state := InSync);
        status := status.(syncedVersion := version);
      } else {
        desired := Fill(existing, IntentOf(ss, value, version));
        status := status.(state := InSync);
        status := status.(syncedVersion := version);
      }
      var now := server.Clock(k);
      LaterGrows(k, atRead, server.w);
      LaterTransitive(k, before, atRead, server.w);
      InvValid(server.w);
      stamped := |server.w.h| - 1;
      status := status.(lastSync := Some(now));
    }
  }

  lemma LaterGrows(k: Key, a: World, b: World)
    requires Later(k, a, b)
    ensures a.h <= b.h && a.syncAt <= b.syncAt && a.secretAt <= b.secretAt
  {
  }

  /** The in-memory snapshot the controller takes before the engine may change the Secret. */
  datatype Snap = Snap(version: string, data: map<string, string>, owned: bool)

  /** The controller's write gate, over the snapshot taken before and the object as it is after Sync. */
  predicate GateOpen(fetched: bool, prior: Snap, syncedVersion: string, data: map<string, string>) {
    !fetched || !prior.owned || prior.version != syncedVersion || prior.data != data
  }

  function Photograph(o: SecretObject?, uid: Uid): Snap
    reads o
  {
    if o == null then Snap("", map[], false) else Snap(VersionOf(o.Value()), o.data, ControlledBy(o.Value(), uid))
  }

  /**
   Why the snapshot must be taken before Sync: then the gate opens exactly when the engine did not
   skip, although the engine has meanwhile stamped the very object the gate is about.
   */
  lemma GateMatchesSkip(ss: SecretSync, existing: Option<Secret>, v: VaultVersion, prior: Snap, data: map<string,
                        string>)
    requires !Taken(ss, existing)
    requires existing.Some? ==>
               prior == Snap(VersionOf(existing.value), existing.value.data, ControlledBy(existing.value, ss.uid))
    requires data == if UpToDate(ss, existing, v) then existing.value.data else map[DataKey(ss) := v.value]
    ensures GateOpen(existing.Some?, prior, v.version, data) <==> !UpToDate(ss, existing, v)
    ensures DataKey(ss) in data && data[DataKey(ss)] == v.value
  {
    if existing.Some? {
      DataMatchesExactly(existing.value, DataKey(ss), v.value);
    }
  }

  /** Taken after Sync the same comparison would never ask for a write once the Secret exists. */
  lemma LateSnapshotNeverWrites(s: Secret, want: Intent)
    ensures var after := Built(s, want);
            !GateOpen(true, Snap(VersionOf(after), after.data, ControlledBy(after, want.uid)), want.version, after.data)
  {
  }
}
