/**
 What the state of the delivery machine stands for, in terms of the events alone, and the promise
 about notifications in those terms.
 */
module Chronicle {
  import opened Objects
  import opened Listener
  import opened Delivery

  // ----- What the events say -----

  /** How many versions of the secret have been published, under whatever spelling of its name. */
  function Published(events: seq<Event>, source: VaultRef): nat {
    if events == [] then 0
    else
      var last := events[|events| - 1];
      Published(events[..|events| - 1], source) + if last.Publish? && SameSource(last.source, source) then 1 else 0
  }

  /** How many sends of `k` have not been taken from the channel. */
  function Underway(events: seq<Event>, k: Key): int {
    if events == [] then 0
    else
      var last := events[|events| - 1];
      Underway(events[..|events| - 1], k)
      + if last.Listen? && last.a.Sent? && last.a.k == k then 1 else if last == Enqueue(k) then -1 else 0
  }

  predicate Asks(e: Event, k: Key) {
    e == Enqueue(k) || e == Trigger(k) || e == Wake(k)
  }

  predicate Ends(e: Event, k: Key) {
    e.Finish? && e.k == k
  }

  /** A reconcile of `k` was asked for at `j` and none has begun since. */
  predicate AskedAt(events: seq<Event>, k: Key, j: nat) {
    j < |events| && Asks(events[j], k) && forall x | j < x < |events| :: events[x] != Begin(k)
  }

  /** A reconcile of `k` ended at `j` asking to run again and has not been woken since. */
  predicate PutOffAt(events: seq<Event>, k: Key, j: nat) {
    j < |events| && events[j] == Finish(k, true) && forall x | j < x < |events| :: events[x] != Wake(k)
  }

  /** A reconcile of `k` began at `j` and has not ended since. */
  predicate BegunAt(events: seq<Event>, k: Key, j: nat) {
    j < |events| && events[j] == Begin(k) && forall x | j < x < |events| :: !Ends(events[x], k)
  }

  /** The last vault read for `k` was at `j`. */
  predicate LastReadAt(events: seq<Event>, k: Key, j: nat) {
    j < |events| && events[j] == Read(k) && forall x | j < x < |events| :: events[x] != Read(k)
  }

  /** The last reconcile of `k` that has ended did so at `j`. */
  predicate LastEndAt(events: seq<Event>, k: Key, j: nat) {
    j < |events| && Ends(events[j], k) && forall x | j < x < |events| :: !Ends(events[x], k)
  }

  /** Since the last reconcile of `k` began, the vault has been read for it at `j`. */
  predicate ReadInIt(events: seq<Event>, k: Key, j: nat) {
    j < |events| && events[j] == Read(k) && forall x | j < x < |events| :: events[x] != Begin(k)
  }

  // ----- One more event -----

  /** What an event does to the parts of the state that concern `k`. */
  lemma NextChannel(decl: map<Key, VaultRef>, s: Sys, e: Event, k: Key)
    requires Enabled(decl, s, e)
    ensures Next(decl, s, e).channel[k]
            == s.channel[k] + if e.Listen? && e.a.Sent? && e.a.k == k then 1 else if e == Enqueue(k) then -1 else 0
  {
    hide Versions;
  }

  lemma NextAsked(decl: map<Key, VaultRef>, s: Sys, e: Event, k: Key)
    requires Enabled(decl, s, e)
    ensures k in Next(decl, s, e).queue <==> Asks(e, k) || (k in s.queue && e != Begin(k))
  {
    hide Versions;
  }

  lemma NextPutOff(decl: map<Key, VaultRef>, s: Sys, e: Event, k: Key)
    requires Enabled(decl, s, e)
    ensures k in Next(decl, s, e).delayed <==> e == Finish(k, true) || (k in s.delayed && e != Wake(k))
  {
    hide Versions;
  }

  lemma NextRunning(decl: map<Key, VaultRef>, s: Sys, e: Event, k: Key)
    requires Enabled(decl, s, e)
    ensures var t := Next(decl, s, e);
      && (k in t.running <==> e == Begin(k) || (k in s.running && !Ends(e, k)))
      && (k in t.running ==>
            (t.running[k] == HasRead
             <==> e == Read(k) || (e != Begin(k) && k in s.running && s.running[k] == HasRead)))
  {
    hide Versions;
  }

  lemma NextReads(decl: map<Key, VaultRef>, s: Sys, e: Event, k: Key)
    requires Enabled(decl, s, e)
    ensures var t := Next(decl, s, e);
      && (if e == Read(k)
          then k in decl && k in t.lastRead && t.lastRead[k] == ReadRecord(Versions(s, decl[k]) - 1, s.now)
          else (k in t.lastRead <==> k in s.lastRead) && (k in s.lastRead ==> t.lastRead[k] == s.lastRead[k]))
      && (if Ends(e, k)
          then k in s.running && k in t.lastEnd && t.lastEnd[k] == EndRecord(s.running[k] == HasRead, e.again, s.now)
          else (k in t.lastEnd <==> k in s.lastEnd) && (k in s.lastEnd ==> t.lastEnd[k] == s.lastEnd[k]))
  {
    hide Versions;
  }

  lemma NextPublishes(decl: map<Key, VaultRef>, s: Sys, e: Event, source: VaultRef)
    requires Enabled(decl, s, e)
    ensures Versions(Next(decl, s, e), source)
            == Versions(s, source) + if e.Publish? && SameSource(e.source, source) then 1 else 0
  {
    hide FoldRef, SameSource;
    if e.Publish? { FoldRefAgrees(e.source, source); }
  }

  lemma OneMore(events: seq<Event>, k: Key)
    requires events != []
    ensures var before, e := events[..|events| - 1], events[|events| - 1];
      && ((exists j: nat :: AskedAt(events, k, j))
          <==> Asks(e, k) || ((exists j: nat :: AskedAt(before, k, j)) && e != Begin(k)))
      && ((exists j: nat :: PutOffAt(events, k, j))
          <==> e == Finish(k, true) || ((exists j: nat :: PutOffAt(before, k, j)) && e != Wake(k)))
  {
    var before, n := events[..|events| - 1], |events| - 1;
    if Asks(events[n], k) { assert AskedAt(events, k, n); }
    if j: nat :| AskedAt(before, k, j) && events[n] != Begin(k) { assert AskedAt(events, k, j); }
    if j: nat :| AskedAt(events, k, j) && j < n { assert AskedAt(before, k, j); }
    if events[n] == Finish(k, true) { assert PutOffAt(events, k, n); }
    if j: nat :| PutOffAt(before, k, j) && events[n] != Wake(k) { assert PutOffAt(events, k, j); }
    if j: nat :| PutOffAt(events, k, j) && j < n { assert PutOffAt(before, k, j); }
  }

  lemma OneMoreRunning(events: seq<Event>, k: Key)
    requires events != []
    ensures var before, e := events[..|events| - 1], events[|events| - 1];
      && ((exists j: nat :: BegunAt(events, k, j))
          <==> e == Begin(k) || ((exists j: nat :: BegunAt(before, k, j)) && !Ends(e, k)))
      && ((exists j: nat :: ReadInIt(events, k, j))
          <==> e == Read(k) || ((exists j: nat :: ReadInIt(before, k, j)) && e != Begin(k)))
  {
    var before, n := events[..|events| - 1], |events| - 1;
    if events[n] == Begin(k) { assert BegunAt(events, k, n); }
    if j: nat :| BegunAt(before, k, j) && !Ends(events[n], k) { assert BegunAt(events, k, j); }
    if j: nat :| BegunAt(events, k, j) && j < n { assert BegunAt(before, k, j); }
    if events[n] == Read(k) { assert ReadInIt(events, k, n); }
    if j: nat :| ReadInIt(before, k, j) && events[n] != Begin(k) { assert ReadInIt(events, k, j); }
    if j: nat :| ReadInIt(events, k, j) && j < n { assert ReadInIt(before, k, j); }
  }

  // ----- The state says the same -----

  lemma {:induction false} VersionsArePublished(decl: map<Key, VaultRef>, events: seq<Event>, source: VaultRef)
    requires After(decl, events).Some?
    ensures Versions(After(decl, events).value, source) == Published(events, source)
  {
    hide Versions, SameSource, Enabled, Next;
    if events == [] {
      NothingYet(decl, source);
    } else {
      var before := events[..|events| - 1];
      VersionsArePublished(decl, before, source);
      NextPublishes(decl, After(decl, before).value, events[|events| - 1], source);
    }
  }

  lemma NothingYet(decl: map<Key, VaultRef>, source: VaultRef)
    ensures Versions(After(decl, []).value, source) == 0
  {
  }

  /** What waits, and where. `HasRead` says that the vault has been read since the reconcile began. */
  lemma {:induction false} StateIsHistory(decl: map<Key, VaultRef>, events: seq<Event>, k: Key)
    requires After(decl, events).Some?
    ensures var s := After(decl, events).value;
      && s.channel[k] == Underway(events, k)
      && (k in s.queue <==> exists j: nat :: AskedAt(events, k, j))
      && (k in s.delayed <==> exists j: nat :: PutOffAt(events, k, j))
      && (k in s.running <==> exists j: nat :: BegunAt(events, k, j))
      && (k in s.running ==> (s.running[k] == HasRead <==> exists j: nat :: ReadInIt(events, k, j)))
  {
    hide AskedAt, PutOffAt, BegunAt, ReadInIt, Asks, Ends, Enabled, Next;
    if events == [] {
      NothingAt(k);
    } else {
      var before := events[..|events| - 1];
      StateIsHistory(decl, before, k);
      var s, last := After(decl, before).value, events[|events| - 1];
      NextChannel(decl, s, last, k);
      NextAsked(decl, s, last, k);
      NextPutOff(decl, s, last, k);
      NextRunning(decl, s, last, k);
      OneMore(events, k);
      OneMoreRunning(events, k);
    }
  }

  lemma NothingAt(k: Key)
    ensures !(exists j: nat :: AskedAt([], k, j)) && !(exists j: nat :: PutOffAt([], k, j))
    ensures !(exists j: nat :: BegunAt([], k, j))
  {
  }

  /** What is remembered of the last read is when it was, and that it saw the latest version then published. */
  lemma {:induction false} LastReadIsLatest(decl: map<Key, VaultRef>, events: seq<Event>, k: Key)
    requires After(decl, events).Some?
    ensures var s := After(decl, events).value;
      if k in s.lastRead
      then
        && LastReadAt(events, k, s.lastRead[k].at) && k in decl
        && s.lastRead[k].version == Published(events[..s.lastRead[k].at], decl[k]) - 1
      else Read(k) !in events
  {
    hide Versions, Enabled, Next, Published;
    if events != [] {
      var before, n := events[..|events| - 1], |events| - 1;
      LastReadIsLatest(decl, before, k);
      AlwaysOrdered(decl, before, k);
      var s := After(decl, before).value;
      NextReads(decl, s, events[n], k);
      if events[n] == Read(k) {
        VersionsArePublished(decl, before, decl[k]);
      } else if k in s.lastRead {
        assert before[..s.lastRead[k].at] == events[..s.lastRead[k].at];
      }
    }
  }

  /** What is remembered of the last reconcile to end is when that was, what it asked for, and whether it had read. */
  lemma {:induction false} LastEndIsLast(decl: map<Key, VaultRef>, events: seq<Event>, k: Key)
    requires After(decl, events).Some?
    ensures var s := After(decl, events).value;
      if k in s.lastEnd
      then
        var e := s.lastEnd[k];
        && LastEndAt(events, k, e.at) && events[e.at].again == e.again
        && (e.read <==> exists j: nat :: ReadInIt(events[..e.at], k, j))
      else forall x | x in events :: !Ends(x, k)
  {
    hide Enabled, Next, ReadInIt, BegunAt, AskedAt, PutOffAt, Underway;
    if events != [] {
      var before, n := events[..|events| - 1], |events| - 1;
      LastEndIsLast(decl, before, k);
      AlwaysOrdered(decl, before, k);
      var s := After(decl, before).value;
      NextReads(decl, s, events[n], k);
      if Ends(events[n], k) {
        StateIsHistory(decl, before, k);
      } else if k in s.lastEnd {
        assert before[..s.lastEnd[k].at] == events[..s.lastEnd[k].at];
      }
    }
  }

  // ----- The promise -----

  /** A reconcile of `k` that has yet to read is in the channel, asked for, or begun. */
  ghost predicate Coming(events: seq<Event>, k: Key) {
    || Underway(events, k) > 0
    || (exists j: nat :: AskedAt(events, k, j))
    || ((exists j: nat :: BegunAt(events, k, j)) && !(exists j: nat :: ReadInIt(events, k, j)))
  }

  /** At `j` the vault was read for `k`, and more than `version` versions had been published. */
  predicate ReadNewer(decl: map<Key, VaultRef>, events: seq<Event>, k: Key, version: nat, j: nat) {
    j < |events| && k in decl && events[j] == Read(k) && version < Published(events[..j], decl[k])
  }

  /** The last reconcile of `k` ended at `j` without having read, and is retried if it asked for that. */
  ghost predicate EndedWithout(events: seq<Event>, k: Key, j: nat) {
    && LastEndAt(events, k, j) && !(exists x: nat :: ReadInIt(events[..j], k, x))
    && (events[j].again ==>
          || (exists x: nat :: AskedAt(events, k, x))
          || (exists x: nat :: PutOffAt(events, k, x))
          || (exists x: nat :: BegunAt(events, k, x)))
  }

  /** No notification is lost, said of the events of any run alone. */
  lemma NothingSentIsLost(decl: map<Key, VaultRef>, events: seq<Event>, i: nat, m: Message, k: Key)
    requires After(decl, events).Some?
    requires i < |events| && events[i] == Listen(Sent(m, k)) && m.body.Event?
    requires k in decl && SameSource(decl[k], m.body.source)
    ensures || Coming(events, k)
            || (exists j | i < j < |events| :: ReadNewer(decl, events, k, m.body.version, j))
            || (exists j | i < j < |events| :: EndedWithout(events, k, j))
  {
    hide After, AskedAt, PutOffAt, BegunAt, ReadInIt, Underway, Published;
    NeverLost(decl, events, i, m, k);
    StateIsHistory(decl, events, k);
    LastReadIsLatest(decl, events, k);
    LastEndIsLast(decl, events, k);
    var s := After(decl, events).value;
    if ReadSince(s, k, m.body.version, i) {
      assert ReadNewer(decl, events, k, m.body.version, s.lastRead[k].at);
    }
    if EndedUnread(s, k, i) {
      assert EndedWithout(events, k, s.lastEnd[k].at);
    }
  }
}
