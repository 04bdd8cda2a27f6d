/**
 From the queue to the vault read: the listener's sends, the event channel, the controller's
 work queue and its workers, interleaved in any order with new vault versions. A dispatched
 notification may be delayed, merged or overtaken; it is never lost.
 */
module Delivery {
  import opened Objects
  import opened Listener
  import opened Accounting

  datatype Progress = Unread | HasRead

  // `version` is a position in the vault's history of the secret; `at` counts events.
  datatype ReadRecord = ReadRecord(version: nat, at: nat)

  // `again`: the reconcile returned an error or a requeue delay.
  datatype EndRecord = EndRecord(read: bool, again: bool, at: nat)

  datatype Sys = Sys(
    now: nat,
    versions: map<VaultRef, nat>,
    channel: multiset<Key>,
    queue: set<Key>,
    delayed: set<Key>,
    running: map<Key, Progress>,
    lastRead: map<Key, ReadRecord>,
    lastEnd: map<Key, EndRecord>)

  datatype Event =
    | Publish(source: VaultRef)
    | Listen(a: Act)
    | Enqueue(k: Key)
    | Trigger(k: Key)
    | Wake(k: Key)
    | Begin(k: Key)
    | Read(k: Key)
    | Finish(k: Key, again: bool)

  const START := Sys(0, map[], multiset{}, {}, {}, map[], map[], map[])

  /** How many versions of the secret the vault holds. */
  function Versions(s: Sys, source: VaultRef): nat {
    if FoldRef(source) in s.versions then s.versions[FoldRef(source)] else 0
  }

  /**
   A message announces a version the vault already holds. A key is given to one worker at a
   time; while it runs, new requests for it wait in the queue.
   */
  predicate Enabled(decl: map<Key, VaultRef>, s: Sys, e: Event) {
    match e
    case Listen(Sent(m, _)) => m.body.Event? && m.body.version < Versions(s, m.body.source)
    case Enqueue(k) => k in s.channel
    case Wake(k) => k in s.delayed
    case Begin(k) => k in s.queue && k !in s.running
    case Read(k) => k in s.running && s.running[k] == Unread && k in decl && Versions(s, decl[k]) > 0
    case Finish(k, _) => k in s.running
    case _ => true
  }

  function Next(decl: map<Key, VaultRef>, s: Sys, e: Event): Sys
    requires Enabled(decl, s, e)
  {
    var t := s.(now := s.now + 1);
    match e
    case Publish(source) => t.(versions := s.versions[FoldRef(source) := Versions(s, source) + 1])
    case Listen(Sent(_, k)) => t.(channel := s.channel + multiset{k})
    case Listen(_) => t
    case Enqueue(k) => t.(channel := s.channel - multiset{k}, queue := s.queue + {k})
    case Trigger(k) => t.(queue := s.queue + {k})
    case Wake(k) => t.(delayed := s.delayed - {k}, queue := s.queue + {k})
    case Begin(k) => t.(queue := s.queue - {k}, running := s.running[k := Unread])
    case Read(k) =>
      t.(running := s.running[k := HasRead],
         lastRead := s.lastRead[k := ReadRecord(Versions(s, decl[k]) - 1, s.now)])
    case Finish(k, again) =>
      t.(running := s.running - {k},
         lastEnd := s.lastEnd[k := EndRecord(s.running[k] == HasRead, again, s.now)],
         delayed := if again then s.delayed + {k} else s.delayed)
  }

  /** The states of a run, or None once an event was not enabled. */
  function After(decl: map<Key, VaultRef>, events: seq<Event>): Option<Sys> {
    if events == [] then Some(START)
    else
      var before := After(decl, events[..|events| - 1]);
      var e := events[|events| - 1];
      if before.Some? && Enabled(decl, before.value, e) then Some(Next(decl, before.value, e)) else None
  }

  /** A reconcile of `k` is queued, waiting to be retried, or under way. */
  predicate Scheduled(s: Sys, k: Key) {
    k in s.queue || k in s.delayed || k in s.running
  }

  /** A reconcile that has yet to read the vault is on its way. */
  predicate ToRead(s: Sys, k: Key) {
    k in s.channel || k in s.queue || (k in s.running && s.running[k] == Unread)
  }

  predicate ReadSince(s: Sys, k: Key, version: nat, since: nat) {
    k in s.lastRead && s.lastRead[k].at > since && s.lastRead[k].version >= version
  }

  /** The latest reconcile ended after `since` without reading, and it is retried unless it ended for good. */
  predicate EndedUnread(s: Sys, k: Key, since: nat) {
    && k in s.lastEnd && s.lastEnd[k].at > since && !s.lastEnd[k].read
    && (s.lastEnd[k].again ==> Scheduled(s, k))
  }

  predicate Covered(s: Sys, k: Key, version: nat, since: nat) {
    ToRead(s, k) || ReadSince(s, k, version, since) || EndedUnread(s, k, since)
  }

  // ----- What every reachable state keeps -----

  predicate Ordered(s: Sys, k: Key) {
    && (k in s.lastRead ==> s.lastRead[k].at < s.now)
    && (k in s.lastEnd ==> s.lastEnd[k].at < s.now)
    && (k in s.running && s.running[k] == HasRead ==>
          k in s.lastRead && (k in s.lastEnd ==> s.lastEnd[k].at < s.lastRead[k].at))
    && (k in s.lastEnd && s.lastEnd[k].again ==> Scheduled(s, k))
  }

  lemma OrderedStep(decl: map<Key, VaultRef>, s: Sys, e: Event, k: Key)
    requires Enabled(decl, s, e) && Ordered(s, k)
    ensures Ordered(Next(decl, s, e), k) && Next(decl, s, e).now == s.now + 1
  {
    hide Versions;
  }

  lemma {:induction false} AlwaysOrdered(decl: map<Key, VaultRef>, events: seq<Event>, k: Key)
    requires After(decl, events).Some?
    ensures Ordered(After(decl, events).value, k)
    ensures After(decl, events).value.now == |events|
  {
    hide Ordered, Enabled, Next;
    if events == [] {
      assert Ordered(START, k) by { StartOrdered(k); }
    } else {
      var before := events[..|events| - 1];
      AlwaysOrdered(decl, before, k);
      OrderedStep(decl, After(decl, before).value, events[|events| - 1], k);
    }
  }

  lemma StartOrdered(k: Key)
    ensures Ordered(START, k)
  {
  }

  /** Reads after `since` are not older than `version`, which the vault holds. */
  predicate Current(decl: map<Key, VaultRef>, s: Sys, k: Key, version: nat, since: nat) {
    && since < s.now
    && k in decl && version < Versions(s, decl[k])
    && (k in s.lastRead && s.lastRead[k].at > since ==> s.lastRead[k].version >= version)
  }

  lemma VersionsGrow(decl: map<Key, VaultRef>, s: Sys, e: Event, source: VaultRef)
    requires Enabled(decl, s, e)
    ensures Versions(s, source) <= Versions(Next(decl, s, e), source)
    ensures !e.Publish? ==> Versions(s, source) == Versions(Next(decl, s, e), source)
  {
    hide FoldRef;
  }

  lemma CurrentStep(decl: map<Key, VaultRef>, s: Sys, e: Event, k: Key, version: nat, since: nat)
    requires Enabled(decl, s, e) && Current(decl, s, k, version, since)
    ensures Current(decl, Next(decl, s, e), k, version, since)
  {
    VersionsGrow(decl, s, e, decl[k]);
    hide Versions;
  }

  lemma CoveredStep(decl: map<Key, VaultRef>, s: Sys, e: Event, k: Key, version: nat, since: nat)
    requires Enabled(decl, s, e) && Ordered(s, k)
    requires Current(decl, s, k, version, since) && Covered(s, k, version, since)
    ensures Current(decl, Next(decl, s, e), k, version, since)
    ensures Covered(Next(decl, s, e), k, version, since)
  {
    CurrentStep(decl, s, e, k, version, since);
    OrderedStep(decl, s, e, k);
    hide Versions;
    if !ToRead(s, k) && !EndedUnread(s, k, since) {
      hide EndedUnread;
      assert ReadSince(s, k, version, since);
      if e != Read(k) {
        assert ReadSince(Next(decl, s, e), k, version, since);
      }
    }
  }

  /** Sending puts the key in the channel. */
  lemma SentIsCovered(decl: map<Key, VaultRef>, s: Sys, m: Message, k: Key)
    requires Enabled(decl, s, Listen(Sent(m, k))) && Ordered(s, k)
    requires k in decl && FoldRef(decl[k]) == FoldRef(m.body.source)
    ensures var t := Next(decl, s, Listen(Sent(m, k)));
      Current(decl, t, k, m.body.version, s.now) && Covered(t, k, m.body.version, s.now)
  {
    hide Fold, FoldRef;
  }

  lemma {:induction false} SentStaysCovered(decl: map<Key, VaultRef>, events: seq<Event>, i: nat, m: Message, k: Key)
    requires After(decl, events).Some?
    requires i < |events| && events[i] == Listen(Sent(m, k)) && m.body.Event?
    requires k in decl && FoldRef(decl[k]) == FoldRef(m.body.source)
    ensures var s := After(decl, events).value;
      Current(decl, s, k, m.body.version, i) && Covered(s, k, m.body.version, i)
  {
    hide Ordered, Current, Covered, Enabled, Next;
    var before := events[..|events| - 1];
    AlwaysOrdered(decl, before, k);
    var s := After(decl, before).value;
    if i == |events| - 1 {
      SentIsCovered(decl, s, m, k);
    } else {
      SentStaysCovered(decl, before, i, m, k);
      CoveredStep(decl, s, events[|events| - 1], k, m.body.version, i);
    }
  }

  /**
   A notification sent for a SecretSync is never lost: in every later state a reconcile of it is
   on its way, or it has read that version or a newer one since, or its latest reconcile ended
   since without reading and is retried unless it ended for good.
   */
  lemma {:induction false} NeverLost(decl: map<Key, VaultRef>, events: seq<Event>, i: nat, m: Message, k: Key)
    requires After(decl, events).Some?
    requires i < |events| && events[i] == Listen(Sent(m, k)) && m.body.Event?
    requires Declares(decl, k, m.body.source)
    ensures Covered(After(decl, events).value, k, m.body.version, i)
  {
    FoldRefAgrees(decl[k], m.body.source);
    SentStaysCovered(decl, events, i, m, k);
  }

  /** A reconcile that asked to be run again is scheduled in every later state until it runs. */
  lemma {:induction false} NeverForgotten(decl: map<Key, VaultRef>, events: seq<Event>, k: Key)
    requires After(decl, events).Some?
    ensures var s := After(decl, events).value;
      k in s.lastEnd && s.lastEnd[k].again ==> Scheduled(s, k)
  {
    AlwaysOrdered(decl, events, k);
  }

  // ----- Together with the listener -----

  /** What the listener did in a run. */
  function Heard(events: seq<Event>): seq<Act> {
    if events == [] then []
    else
      var last := events[|events| - 1];
      Heard(events[..|events| - 1]) + if last.Listen? then [last.a] else []
  }

  lemma {:induction false} HeardHappened(events: seq<Event>, j: nat) returns (i: nat)
    requires j < |Heard(events)|
    ensures i < |events| && events[i] == Listen(Heard(events)[j])
  {
    var before := events[..|events| - 1];
    if j < |Heard(before)| {
      i := HeardHappened(before, j);
    } else {
      i := |events| - 1;
    }
  }

  /** `k` was sent for `m` in the run, and what `m` announced has not been lost on it. */
  ghost predicate Kept(decl: map<Key, VaultRef>, events: seq<Event>, m: Message, k: Key)
    requires After(decl, events).Some? && m.body.Event?
  {
    exists i: nat :: i < |events| && events[i] == Listen(Sent(m, k))
      && Covered(After(decl, events).value, k, m.body.version, i)
  }

  predicate Declares(decl: map<Key, VaultRef>, k: Key, source: VaultRef) {
    k in decl && SameSource(decl[k], source)
  }

  /** Of the listed SecretSyncs, all that match `m` and are declared as listed have it kept. */
  ghost predicate AllKept(decl: map<Key, VaultRef>, events: seq<Event>, m: Message, items: seq<Item>)
    requires After(decl, events).Some? && m.body.Event?
  {
    forall x | x in items && SameSource(x.ss.source, m.body.source) && x.k in decl && decl[x.k] == x.ss.source ::
      Kept(decl, events, m, x.k)
  }

  /**
   Delayed, never lost. Take any run in which the listener did what a listener does, up to any
   point. Once it has deleted a message it counted dispatched, there is on record, at `n`, the list
   it had read for that message, and every match on it has the message kept.
   */
  lemma {:induction false} DeletedMeansKept(decl: map<Key, VaultRef>, events: seq<Event>, ds: seq<Deed>,
                                            threshold: nat, j: nat, m: Message)
    returns (n: nat)
    requires After(decl, events).Some?
    requires AllPossible(ds, threshold) && Heard(events) <= Log(ds, threshold)
    requires j < |Heard(events)| && Heard(events)[j].DeleteTried? && Heard(events)[j].m == m
    requires j > 0 && Heard(events)[j - 1] == Counted(m, Dispatched)
    ensures SentFromList(Heard(events), n, j - 1, m)
    ensures AllKept(decl, events, m, Heard(events)[n].answer.value)
  {
    hide Log, Matching, After, Heard, Covered, AllPossible;
    var log := Log(ds, threshold);
    DispatchedReachesAll(ds, threshold);
    assert log[j - 1] == Counted(m, Dispatched) && TrueCount(log, j - 1, threshold);
    var at :| SentFromList(log, at, j - 1, m);
    n := at;
    var items := Heard(events)[n].answer.value;
    forall x | x in items && SameSource(x.ss.source, m.body.source) && x.k in decl && decl[x.k] == x.ss.source
      ensures Kept(decl, events, m, x.k)
    {
      MatchingExactly(items, m.body.source, x.k);
      SentInRun(decl, events, n, j - 1, m, x.k);
    }
  }

  lemma SentInRun(decl: map<Key, VaultRef>, events: seq<Event>, n: nat, j: nat, m: Message, k: Key)
    requires After(decl, events).Some? && m.body.Event?
    requires SentFromList(Heard(events), n, j, m)
    requires k in Matching(Heard(events)[n].answer.value, m.body.source) && Declares(decl, k, m.body.source)
    ensures Kept(decl, events, m, k)
  {
    hide After, Heard, Covered, EqualFold, Matching;
    var ks := Matching(Heard(events)[n].answer.value, m.body.source);
    var q :| 0 <= q < |ks| && ks[q] == k;
    assert Heard(events)[n + 1 + q] == Sent(m, k);
    var i := HeardHappened(events, n + 1 + q);
    NeverLost(decl, events, i, m, k);
  }
}
