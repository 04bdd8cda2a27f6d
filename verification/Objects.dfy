/**
 The Kubernetes objects the operator reads and writes, as values, and the pure predicates
 and transformations that the writer, the engine and the controller share.
 */
module Objects {

  datatype Option<+T> = None | Some(value: T)

  type Uid = nat

  datatype Key = Key(ns: string, name: string)

  /** An object together with the resourceVersion under which the API server holds it. */
  datatype Stored<+T> = Stored(obj: T, rv: nat)

  /** The objects without their versions. */
  function Bare<T>(m: map<Key, Stored<T>>): map<Key, T> {
    map k | k in m :: m[k].obj
  }

  // ----- Secrets -----

  // ManagedBy is "app.kubernetes.io/managed-by"; Kvsynk8s is the value "kvsynk8s".
  datatype LabelKey = ManagedBy | OtherLabel(name: string)
  datatype LabelValue = Kvsynk8s | OtherValue(text: string)

  // "kvsynk8s.io/vault", "kvsynk8s.io/secret" and "kvsynk8s.io/version".
  datatype AnnotationKey = AnnVault | AnnSecret | AnnVersion | OtherAnnotation(annotation: string)

  datatype SecretType = OpaqueSecret | OtherType(typeName: string)

  datatype OwnerRef = OwnerRef(uid: Uid, controller: bool)

  datatype Secret = Secret(
    secretType: SecretType,
    labels: map<LabelKey, LabelValue>,
    annotations: map<AnnotationKey, string>,
    data: map<string, string>,
    owners: seq<OwnerRef>,
    immutable: Option<bool>)

  const BLANK := Secret(OtherType(""), map[], map[], map[], [], None)

  /** What one reconcile wants the target Secret to say. */
  datatype Intent = Intent(uid: Uid, vault: string, secret: string, dataKey: string, value: string, version: string)

  predicate Labelled(s: Secret) {
    ManagedBy in s.labels && s.labels[ManagedBy] == Kvsynk8s
  }

  predicate Frozen(s: Secret) {
    s.immutable == Some(true)
  }

  /** The uid of the first reference marked as controller. */
  function ControllerOf(owners: seq<OwnerRef>): (r: Option<Uid>) {
    if owners == [] then None
    else if owners[0].controller then Some(owners[0].uid)
    else ControllerOf(owners[1..])
  }

  predicate ControlledBy(s: Secret, uid: Uid) {
    ControllerOf(s.owners) == Some(uid)
  }

  /** Controlled by somebody else. */
  predicate Foreign(s: Secret, uid: Uid) {
    ControllerOf(s.owners).Some? && ControllerOf(s.owners) != Some(uid)
  }

  predicate Writable(s: Secret, uid: Uid) {
    Labelled(s) || ControlledBy(s, uid)
  }

  predicate DataMatches(s: Secret, dataKey: string, value: string) {
    |s.data| == 1 && dataKey in s.data && s.data[dataKey] == value
  }

  predicate ImmutableBlocks(s: Secret, dataKey: string, value: string) {
    Frozen(s) && !DataMatches(s, dataKey, value)
  }

  function VersionOf(s: Secret): string {
    if AnnVersion in s.annotations then s.annotations[AnnVersion] else ""
  }

  /** Everything the writer stamps on a Secret except the owner reference. */
  function Populate(s: Secret, want: Intent): Secret {
    s.(secretType := OpaqueSecret,
    labels := s.labels[ManagedBy := Kvsynk8s],
    annotations := s.annotations[AnnVault := want.vault][AnnSecret := want.secret][AnnVersion := want.version],
    data := map[want.dataKey := want.value])
  }

  /** Replaces the first reference to `uid` by a controller reference, or appends one. */
  function Upsert(owners: seq<OwnerRef>, uid: Uid): (r: seq<OwnerRef>)
    ensures |r| == |owners| + if exists i | 0 <= i < |owners| :: owners[i].uid == uid then 0 else 1
  {
    if owners == [] then [OwnerRef(uid, true)]
    else if owners[0].uid == uid then [OwnerRef(uid, true)] + owners[1..]
    else [owners[0]] + Upsert(owners[1..], uid)
  }

  /** The library call SetControllerReference: refuses an object that another controller owns. */
  function SetController(s: Secret, uid: Uid): Option<Secret> {
    if Foreign(s, uid) then None else Some(s.(owners := Upsert(s.owners, uid)))
  }

  /** The Secret that a successful write leaves behind, given the one it was built from. */
  function Rewrite(s: Secret, want: Intent): Secret {
    var p := Populate(s, want);
    p.(owners := Upsert(p.owners, want.uid))
  }

  /** The Secret says exactly what the intent asks for. */
  predicate Exact(s: Secret, want: Intent) {
    && s.data == map[want.dataKey := want.value]
    && VersionOf(s) == want.version
    && Labelled(s)
    && ControlledBy(s, want.uid)
  }

  // ----- What the tests on a Secret mean, in terms of its metadata -----

  /** The reference at `i` is the first one marked as controller. */
  predicate FirstController(owners: seq<OwnerRef>, i: nat) {
    i < |owners| && owners[i].controller && forall j | 0 <= j < i :: !owners[j].controller
  }

  lemma {:induction false} ControllerIsTheFirst(owners: seq<OwnerRef>, uid: Uid)
    ensures ControllerOf(owners) == Some(uid)
            <==> exists i: nat | i < |owners| :: FirstController(owners, i) && owners[i].uid == uid
  {
    if owners != [] && !owners[0].controller {
      ControllerIsTheFirst(owners[1..], uid);
      if i: nat :| i < |owners[1..]| && FirstController(owners[1..], i) && owners[1..][i].uid == uid {
        assert FirstController(owners, i + 1);
      }
      if i: nat :| i < |owners| && FirstController(owners, i) && owners[i].uid == uid {
        assert FirstController(owners[1..], i - 1);
      }
    } else if owners != [] {
      assert FirstController(owners, 0);
    }
  }

  /** Carries the managed-by label, or is controlled by `uid`. */
  predicate OursToWrite(s: Secret, uid: Uid) {
    || (ManagedBy in s.labels && s.labels[ManagedBy] == Kvsynk8s)
    || exists i: nat | i < |s.owners| :: FirstController(s.owners, i) && s.owners[i].uid == uid
  }

  /** Controlled by another than `uid`. */
  predicate SomebodyElses(s: Secret, uid: Uid) {
    exists i: nat | i < |s.owners| :: FirstController(s.owners, i) && s.owners[i].uid != uid
  }

  /** The writer's tests are about the label, the first controller reference, the immutable flag and the data. */
  lemma WriterTests(s: Secret, uid: Uid, dataKey: string, value: string)
    ensures Writable(s, uid) <==> OursToWrite(s, uid)
    ensures Foreign(s, uid) <==> SomebodyElses(s, uid)
    ensures Labelled(s) <==> ManagedBy in s.labels && s.labels[ManagedBy] == Kvsynk8s
    ensures ImmutableBlocks(s, dataKey, value) <==> s.immutable == Some(true) && s.data != map[dataKey := value]
  {
    ControllerIsTheFirst(s.owners, uid);
    DataMatchesExactly(s, dataKey, value);
    if c :| ControllerOf(s.owners) == Some(c) {
      ControllerIsTheFirst(s.owners, c);
    }
    if i: nat :| i < |s.owners| && FirstController(s.owners, i) {
      ControllerIsTheFirst(s.owners, s.owners[i].uid);
    }
  }

  lemma ExactMeans(s: Secret, want: Intent)
    ensures Exact(s, want) <==>
            && s.data == map[want.dataKey := want.value]
            && (if AnnVersion in s.annotations then s.annotations[AnnVersion] == want.version else want.version == "")
            && ManagedBy in s.labels && s.labels[ManagedBy] == Kvsynk8s
            && exists i: nat | i < |s.owners| :: FirstController(s.owners, i) && s.owners[i].uid == want.uid
  {
    ControllerIsTheFirst(s.owners, want.uid);
  }

  lemma {:induction false} UpsertController(owners: seq<OwnerRef>, uid: Uid)
    requires ControllerOf(owners) in {None, Some(uid)}
    ensures ControllerOf(Upsert(owners, uid)) == Some(uid)
  {
    if owners == [] {
    } else if owners[0].uid == uid {
    } else {
      var r := Upsert(owners, uid);
      assert r[1..] == Upsert(owners[1..], uid);
      UpsertController(owners[1..], uid);
    }
  }

  /** References to anybody else survive a write, in their order. */
  function Others(owners: seq<OwnerRef>, uid: Uid): seq<OwnerRef> {
    if owners == [] then []
    else if owners[0].uid == uid then Others(owners[1..], uid)
    else [owners[0]] + Others(owners[1..], uid)
  }

  lemma {:induction false} UpsertKeepsOthers(owners: seq<OwnerRef>, uid: Uid)
    ensures Others(Upsert(owners, uid), uid) == Others(owners, uid)
  {
    if owners == [] {
    } else {
      var r := Upsert(owners, uid);
      if owners[0].uid == uid {
        assert r[1..] == owners[1..];
      } else {
        assert r[1..] == Upsert(owners[1..], uid);
        UpsertKeepsOthers(owners[1..], uid);
      }
    }
  }

  /** A write over a Secret that nobody else controls yields exactly the intended one. */
  lemma RewriteExact(s: Secret, want: Intent)
    requires !Foreign(s, want.uid)
    ensures Exact(Rewrite(s, want), want)
    ensures Rewrite(s, want).immutable == s.immutable && Rewrite(s, want).secretType == OpaqueSecret
    ensures var r := Rewrite(s, want);
            && r.data == map[want.dataKey := want.value]
            && ManagedBy in r.labels && r.labels[ManagedBy] == Kvsynk8s
            && r.annotations.Keys >= {AnnVault, AnnSecret, AnnVersion}
            && r.annotations[AnnVault] == want.vault && r.annotations[AnnSecret] == want.secret
            && r.annotations[AnnVersion] == want.version
            && exists i: nat | i < |r.owners| :: FirstController(r.owners, i) && r.owners[i].uid == want.uid
    ensures forall l | l in s.labels && l != ManagedBy ::
              l in Rewrite(s, want).labels && Rewrite(s, want).labels[l] == s.labels[l]
    ensures forall a | a in s.annotations && a.OtherAnnotation? ::
              a in Rewrite(s, want).annotations && Rewrite(s, want).annotations[a] == s.annotations[a]
    ensures Others(Rewrite(s, want).owners, want.uid) == Others(s.owners, want.uid)
  {
    UpsertController(s.owners, want.uid);
    ControllerIsTheFirst(Rewrite(s, want).owners, want.uid);
    UpsertKeepsOthers(s.owners, want.uid);
  }

  lemma DataMatchesExactly(s: Secret, dataKey: string, value: string)
    ensures DataMatches(s, dataKey, value) <==> s.data == map[dataKey := value]
  {
    if DataMatches(s, dataKey, value) {
      assert s.data.Keys == {dataKey} by {
        assert |s.data.Keys| == 1;
        assert dataKey in s.data.Keys;
        assert |s.data.Keys - {dataKey}| == 0;
      }
      assert s.data == map[dataKey := value];
    }
  }

  // ----- SecretSyncs -----

  datatype State = Unset | Pending | InSync | Failing

  datatype Reason =
    | NoReason
    | SecretNotFound
    | AccessDenied
    | AuthenticationFailed
    | SourceDeleted
    | SourceDisabled
    | TransientError
    | TargetConflict
    | TargetImmutable
    | SecretWriteFailed

  datatype Truth = True | False | Unknown
  datatype ConditionReason = Synced | NotYet | Unexplained | Because(reason: Reason)
  datatype ConditionType = Ready | OtherCondition(name: string)

  datatype Condition = Condition(
    conditionType: ConditionType, truth: Truth, why: ConditionReason, generation: nat, since: nat)

  datatype Status = Status(
    state: State,
    reason: Reason,
    lastSync: Option<nat>,
    syncedVersion: string,
    observedGeneration: nat,
    conditions: seq<Condition>)

  const EMPTY_STATUS := Status(Unset, NoReason, None, "", 0, [])

  datatype VaultRef = VaultRef(vault: string, secret: string)

  datatype SecretSync = SecretSync(
    uid: Uid,
    created: nat,
    generation: nat,
    deleting: bool,
    finalizer: bool,
    otherFinalizers: set<string>,
    source: VaultRef,
    secretName: string,
    dataKey: string,
    status: Status)

  function TargetName(k: Key, ss: SecretSync): string {
    if ss.secretName != "" then ss.secretName else k.name
  }

  function TargetKey(k: Key, ss: SecretSync): Key {
    Key(k.ns, TargetName(k, ss))
  }

  function DataKey(ss: SecretSync): string {
    if ss.dataKey != "" then ss.dataKey else ss.source.secret
  }

  function IntentOf(ss: SecretSync, value: string, version: string): Intent {
    Intent(ss.uid, ss.source.vault, ss.source.secret, DataKey(ss), value, version)
  }

  // ----- The vault -----

  datatype VaultVersion = VaultVersion(value: string, version: string)

  // Key Vault names ignore case. The names a SecretSync may carry are ASCII.
  function FoldChar(c: char): char {
    if 'A' <= c <= 'Z' then c + ('a' - 'A') else c
  }

  function Fold(s: string): string {
    seq(|s|, i requires 0 <= i < |s| => FoldChar(s[i]))
  }

  predicate EqualFold(a: string, b: string) {
    |a| == |b| && forall i | 0 <= i < |a| :: FoldChar(a[i]) == FoldChar(b[i])
  }

  function FoldRef(r: VaultRef): VaultRef {
    VaultRef(Fold(r.vault), Fold(r.secret))
  }

  /** The same character, or the two cases of one ASCII letter. */
  predicate SameLetter(a: char, b: char) {
    || a == b
    || ('A' <= a <= 'Z' && b as int == a as int + 32)
    || ('A' <= b <= 'Z' && a as int == b as int + 32)
  }

  /** The same name but for the case of its letters. */
  predicate SameName(a: string, b: string) {
    |a| == |b| && forall i | 0 <= i < |a| :: SameLetter(a[i], b[i])
  }

  predicate SameSource(a: VaultRef, b: VaultRef) {
    SameName(a.vault, b.vault) && SameName(a.secret, b.secret)
  }

  lemma EqualFoldIgnoresCase(a: string, b: string)
    ensures EqualFold(a, b) <==> SameName(a, b)
  {
    if |a| == |b| {
      forall i | 0 <= i < |a| ensures FoldChar(a[i]) == FoldChar(b[i]) <==> SameLetter(a[i], b[i]) {}
    }
  }

  /** Two references that match ignoring case name the same vault secret. */
  lemma FoldRefAgrees(a: VaultRef, b: VaultRef)
    ensures FoldRef(a) == FoldRef(b) <==> EqualFold(a.vault, b.vault) && EqualFold(a.secret, b.secret)
    ensures FoldRef(a) == FoldRef(b) <==> SameSource(a, b)
  {
    EqualFoldIgnoresCase(a.vault, b.vault);
    EqualFoldIgnoresCase(a.secret, b.secret);
    FoldAgrees(a.vault, b.vault);
    FoldAgrees(a.secret, b.secret);
  }

  lemma FoldAgrees(a: string, b: string)
    ensures Fold(a) == Fold(b) <==> EqualFold(a, b)
  {
    if Fold(a) == Fold(b) {
      forall i | 0 <= i < |a| ensures FoldChar(a[i]) == FoldChar(b[i]) {
        assert Fold(a)[i] == Fold(b)[i];
      }
    }
  }
}
