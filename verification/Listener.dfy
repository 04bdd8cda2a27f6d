/**
 The queue listener: it polls for change notifications, sends every matching SecretSync to the
 controller, and deletes what it has dealt with. What it does is kept in a log.
 */
module Listener {
  import opened Objects

  const DEFAULT_BATCH_SIZE := 32
  const DEFAULT_POISON_THRESHOLD := 5

  // A message body is represented by what parsing it yields. `version` is the position of the
  // announced version in the vault's history of that secret.
  datatype Body = Malformed | NotActionable | Event(source: VaultRef, version: nat)

  datatype Message = Message(id: string, dequeues: nat, body: Body)

  datatype Tally = Dispatched | Unmatched | Ignored | Undecodable | Poisoned

  datatype Act =
    | ReceiveFailed
    | Received(at: nat, batch: seq<Message>)
    | Examined(m: Message)
    | Listed(m: Message, answer: Option<seq<Item>>)
    | Sent(m: Message, k: Key)
    | Counted(m: Message, tally: Tally)
    | DeleteTried(m: Message, ok: bool)

  datatype Item = Item(k: Key, ss: SecretSync)

  predicate IsMatch(i: Item, source: VaultRef) {
    EqualFold(i.ss.source.vault, source.vault) && EqualFold(i.ss.source.secret, source.secret)
  }

  /** The listed SecretSyncs that read the announced secret, in list order. */
  function Matching(items: seq<Item>, source: VaultRef): seq<Key> {
    if items == [] then []
    else
      var last := items[|items| - 1];
      Matching(items[..|items| - 1], source) + if IsMatch(last, source) then [last.k] else []
  }

  lemma MatchIgnoresCase(i: Item, source: VaultRef)
    ensures IsMatch(i, source) <==> SameSource(i.ss.source, source)
  {
    EqualFoldIgnoresCase(i.ss.source.vault, source.vault);
    EqualFoldIgnoresCase(i.ss.source.secret, source.secret);
  }

  /** A key is collected if and only if a listed SecretSync of that key names the same source but for case. */
  lemma {:induction false} MatchingExactly(items: seq<Item>, source: VaultRef, k: Key)
    ensures k in Matching(items, source) <==> exists i | i in items :: i.k == k && SameSource(i.ss.source, source)
  {
    hide SameSource, IsMatch;
    if items != [] {
      var last := items[|items| - 1];
      MatchIgnoresCase(last, source);
      MatchingExactly(items[..|items| - 1], source, k);
      assert items == items[..|items| - 1] + [last];
    }
  }

  // ----- What handling one message, or one poll, leaves in the log -----

  datatype Course =
    | DropPoison(ok: bool)
    | DropMalformed(ok: bool)
    | DropIgnored(ok: bool)
    | ListFailed
    | DropUnmatched(items: seq<Item>, ok: bool)
    | CutShort(items: seq<Item>, sent: nat)
    | Dispatch(items: seq<Item>, ok: bool)

  function Sends(m: Message, ks: seq<Key>): seq<Act> {
    seq(|ks|, i requires 0 <= i < |ks| => Sent(m, ks[i]))
  }

  /** The courses a message can take. */
  predicate Fits(m: Message, c: Course, threshold: nat) {
    if m.dequeues > threshold then c.DropPoison?
    else
      match m.body
      case Malformed => c.DropMalformed?
      case NotActionable => c.DropIgnored?
      case Event(source, _) =>
        match c
        case ListFailed => true
        case DropUnmatched(items, _) => Matching(items, source) == []
        case CutShort(items, sent) => sent < |Matching(items, source)|
        case Dispatch(items, _) => Matching(items, source) != []
        case _ => false
  }

  function Trace(m: Message, c: Course, threshold: nat): seq<Act>
    requires Fits(m, c, threshold)
  {
    match c
    case DropPoison(ok) => [Counted(m, Poisoned), DeleteTried(m, ok)]
    case DropMalformed(ok) => [Examined(m), Counted(m, Undecodable), DeleteTried(m, ok)]
    case DropIgnored(ok) => [Examined(m), Counted(m, Ignored), DeleteTried(m, ok)]
    case ListFailed => [Examined(m), Listed(m, None)]
    case DropUnmatched(items, ok) =>
      [Examined(m), Listed(m, Some(items)), Counted(m, Unmatched), DeleteTried(m, ok)]
    case CutShort(items, sent) =>
      [Examined(m), Listed(m, Some(items))] + Sends(m, Matching(items, m.body.source)[..sent])
    case Dispatch(items, ok) =>
      [Examined(m), Listed(m, Some(items))] + Sends(m, Matching(items, m.body.source))
      + [Counted(m, Dispatched), DeleteTried(m, ok)]
  }

  datatype Deed = Failed | Got(at: nat, batch: seq<Message>) | Handled(m: Message, c: Course)

  predicate Possible(d: Deed, threshold: nat) {
    d.Handled? ==> Fits(d.m, d.c, threshold)
  }

  predicate AllPossible(ds: seq<Deed>, threshold: nat) {
    forall i | 0 <= i < |ds| :: Possible(ds[i], threshold)
  }

  function ActsOf(d: Deed, threshold: nat): seq<Act>
    requires Possible(d, threshold)
  {
    match d
    case Failed => [ReceiveFailed]
    case Got(at, batch) => [Received(at, batch)]
    case Handled(m, c) => Trace(m, c, threshold)
  }

  /** The log of a listener that has done these things in this order. */
  function Log(ds: seq<Deed>, threshold: nat): seq<Act>
    requires AllPossible(ds, threshold)
  {
    if ds == [] then [] else Log(ds[..|ds| - 1], threshold) + ActsOf(ds[|ds| - 1], threshold)
  }

  /** One receive that worked, and then the first `n` of its messages handled, one by one. */
  predicate Polled(ds: seq<Deed>, n: nat) {
    && |ds| == n + 1
    && ds[0].Got? && n <= |ds[0].batch|
    && forall i | 1 <= i <= n :: ds[i].Handled? && ds[i].m == ds[0].batch[i - 1]
  }

  /** How many receives were tried. */
  function Polls(ds: seq<Deed>): nat {
    if ds == [] then 0 else Polls(ds[..|ds| - 1]) + if ds[|ds| - 1].Handled? then 0 else 1
  }

  function CountOf(log: seq<Act>, t: Tally): nat {
    if log == [] then 0
    else CountOf(log[..|log| - 1], t) + if log[|log| - 1].Counted? && log[|log| - 1].tally == t then 1 else 0
  }

  function Deletes(log: seq<Act>): nat {
    if log == [] then 0
    else Deletes(log[..|log| - 1]) + if log[|log| - 1].DeleteTried? then 1 else 0
  }

  /** The tally a course ends in, if it ends in one. */
  function Outcome(c: Course): Option<Tally> {
    match c
    case DropPoison(_) => Some(Poisoned)
    case DropMalformed(_) => Some(Undecodable)
    case DropIgnored(_) => Some(Ignored)
    case DropUnmatched(_, _) => Some(Unmatched)
    case Dispatch(_, _) => Some(Dispatched)
    case ListFailed | CutShort(_, _) => None
  }

  function Tallied(totals: map<Tally, nat>, o: Option<Tally>): map<Tally, nat>
    requires forall t :: t in totals
  {
    if o.Some? then totals[o.value := totals[o.value] + 1] else totals
  }

  /** How many receives have failed since the last one that worked. */
  function TrailingFailures(log: seq<Act>): nat {
    if log == [] then 0
    else
      match log[|log| - 1]
      case ReceiveFailed => TrailingFailures(log[..|log| - 1]) + 1
      case Received(_, _) => 0
      case _ => TrailingFailures(log[..|log| - 1])
  }

  function LastReceive(log: seq<Act>): Option<nat> {
    if log == [] then None
    else if log[|log| - 1].Received? then Some(log[|log| - 1].at)
    else LastReceive(log[..|log| - 1])
  }

  // ----- The outside world: nothing about its answers is taken for granted -----

  method Receive(batchSize: nat) returns (r: Option<seq<Message>>)
    ensures r.Some? ==> |r.value| <= batchSize
  {
    r := *;
    if r.Some? && |r.value| > batchSize {
      r := None;
    }
  }

  method Try() returns (ok: bool) {
    ok := *;
  }

  method Time() returns (now: nat) {
    now := *;
  }

  /** strings.EqualFold on both names, over the list in its order. */
  method MatchingSecretSyncs(items: seq<Item>, source: VaultRef) returns (matches: seq<Key>)
    ensures matches == Matching(items, source)
    ensures forall k :: k in matches <==> exists i | i in items :: i.k == k && SameSource(i.ss.source, source)
  {
    hide SameSource;
    forall k
      ensures k in Matching(items, source) <==> exists i | i in items :: i.k == k && SameSource(i.ss.source, source)
    {
      MatchingExactly(items, source, k);
    }
    matches := [];
    for i := 0 to |items|
      invariant matches == Matching(items[..i], source)
    {
      assert items[..i + 1][..i] == items[..i];
      if IsMatch(items[i], source) {
        matches := matches + [items[i].k];
      }
    }
    assert items[..|items|] == items;
  }

  class QueueListener {
    var batchSize: nat
    var poisonThreshold: nat

    // Health state, its two gauges, and the message counter.
    var consecutiveReceiveFailures: nat
    var lastSuccessfulReceive: Option<nat>
    var failuresGauge: nat
    var lastReceiveGauge: Option<nat>
    var messagesTotal: map<Tally, nat>

    var log: seq<Act>
    ghost var deeds: seq<Deed>

    /** The counters and gauges say what the log says. */
    ghost predicate Counts()
      reads this`messagesTotal, this`consecutiveReceiveFailures, this`failuresGauge
      reads this`lastSuccessfulReceive, this`lastReceiveGauge, this`log
    {
      && (forall t :: t in messagesTotal && messagesTotal[t] == CountOf(log, t))
      && consecutiveReceiveFailures == TrailingFailures(log) == failuresGauge
      && lastSuccessfulReceive == LastReceive(log) == lastReceiveGauge
    }

    ghost predicate Valid()
      reads this
    {
      AllPossible(deeds, poisonThreshold) && log == Log(deeds, poisonThreshold) && Counts()
    }

    /** Zero-valued settings stand for the defaults. */
    constructor (batchSize: nat, poisonThreshold: nat)
      ensures Valid() && log == [] && deeds == []
      ensures this.batchSize > 0 && this.poisonThreshold > 0
      ensures this.batchSize == if batchSize > 0 then batchSize else 32
      ensures this.poisonThreshold == if poisonThreshold > 0 then poisonThreshold else 5
    {
      this.batchSize := if batchSize == 0 then DEFAULT_BATCH_SIZE else batchSize;
      this.poisonThreshold := if poisonThreshold == 0 then DEFAULT_POISON_THRESHOLD else poisonThreshold;
      consecutiveReceiveFailures, failuresGauge, lastSuccessfulReceive, lastReceiveGauge := 0, 0, None, None;
      messagesTotal := map[Dispatched := 0, Unmatched := 0, Ignored := 0, Undecodable := 0, Poisoned := 0];
      log, deeds := [], [];
      new;
      forall t ensures t in messagesTotal && messagesTotal[t] == 0 {
        match t { case Dispatched | Unmatched | Ignored | Undecodable | Poisoned => }
      }
    }

    method RecordReceiveSuccess(now: nat)
      modifies this`consecutiveReceiveFailures, this`lastSuccessfulReceive, this`failuresGauge, this`lastReceiveGauge
      ensures consecutiveReceiveFailures == 0 == failuresGauge
      ensures lastSuccessfulReceive == Some(now) == lastReceiveGauge
    {
      consecutiveReceiveFailures := 0;
      lastSuccessfulReceive := Some(now);
      failuresGauge := 0;
      lastReceiveGauge := Some(now);
    }

    method RecordReceiveFailure()
      modifies this`consecutiveReceiveFailures, this`failuresGauge
      ensures consecutiveReceiveFailures == old(consecutiveReceiveFailures) + 1 == failuresGauge
    {
      consecutiveReceiveFailures := consecutiveReceiveFailures + 1;
      failuresGauge := consecutiveReceiveFailures;
    }

    method RecordMessageOutcome(m: Message, t: Tally)
      requires forall t :: t in messagesTotal
      modifies this`messagesTotal, this`log
      ensures messagesTotal == Tallied(old(messagesTotal), Some(t))
      ensures log == old(log) + [Counted(m, t)]
    {
      messagesTotal := messagesTotal[t := messagesTotal[t] + 1];
      log := log + [Counted(m, t)];
    }

    method DeleteMessage(m: Message) returns (ok: bool)
      modifies this`log
      ensures log == old(log) + [DeleteTried(m, ok)]
    {
      ok := Try();
      log := log + [DeleteTried(m, ok)];
    }

    /** Counts a message under `t` and removes it from the queue. */
    method Drop(m: Message, t: Tally) returns (ok: bool)
      requires forall t :: t in messagesTotal
      modifies this`messagesTotal, this`log
      ensures messagesTotal == Tallied(old(messagesTotal), Some(t))
      ensures log == old(log) + [Counted(m, t), DeleteTried(m, ok)]
    {
      RecordMessageOutcome(m, t);
      ok := DeleteMessage(m);
    }

    /** The cached list of all SecretSyncs, or None when listing fails. Whatever it answers is on record. */
    method ListAll(m: Message) returns (r: Option<seq<Item>>)
      modifies this`log
      ensures log == old(log) + [Listed(m, r)]
    {
      r := *;
      log := log + [Listed(m, r)];
    }

    /** Sends the matches in order until done or cancelled. */
    method SendAll(m: Message, matches: seq<Key>) returns (sent: nat)
      modifies this`log
      ensures sent <= |matches|
      ensures log == old(log) + Sends(m, matches[..sent])
    {
      sent := 0;
      assert matches[..0] == [];
      while sent < |matches|
        invariant sent <= |matches|
        invariant log == old(log) + Sends(m, matches[..sent])
      {
        var accepted := Try();
        if !accepted {
          return;
        }
        log := log + [Sent(m, matches[sent])];
        sent := sent + 1;
        assert Sends(m, matches[..sent]) == Sends(m, matches[..sent - 1]) + [Sent(m, matches[sent - 1])];
      }
    }

    /** Match, dispatch to every match, delete. */
    method DispatchEvent(m: Message) returns (c: Course)
      requires m.dequeues <= poisonThreshold && m.body.Event?
      requires forall t :: t in messagesTotal
      modifies this`messagesTotal, this`log
      ensures Fits(m, c, poisonThreshold)
      ensures [Examined(m)] <= Trace(m, c, poisonThreshold)
      ensures log == old(log) + Trace(m, c, poisonThreshold)[1..]
      ensures messagesTotal == Tallied(old(messagesTotal), Outcome(c))
    {
      hide Matching;
      var list := ListAll(m);
      if list.None? {
        return ListFailed;
      }
      var items := list.value;
      var matches := MatchingSecretSyncs(items, m.body.source);
      if |matches| == 0 {
        var ok := Drop(m, Unmatched);
        return DropUnmatched(items, ok);
      }
      var sent := SendAll(m, matches);
      if sent < |matches| {
        return CutShort(items, sent);
      }
      assert matches[..sent] == matches;
      var ok := Drop(m, Dispatched);
      c := Dispatch(items, ok);
    }

    /** Poison check and parse, then on to dispatching. */
    method Process(m: Message) returns (c: Course)
      requires forall t :: t in messagesTotal
      modifies this`messagesTotal, this`log
      ensures Fits(m, c, poisonThreshold)
      ensures log == old(log) + Trace(m, c, poisonThreshold)
      ensures messagesTotal == Tallied(old(messagesTotal), Outcome(c))
    {
      if m.dequeues > poisonThreshold {
        var ok := Drop(m, Poisoned);
        return DropPoison(ok);
      }
      log := log + [Examined(m)];
      if m.body.Malformed? {
        var ok := Drop(m, Undecodable);
        return DropMalformed(ok);
      }
      if m.body.NotActionable? {
        var ok := Drop(m, Ignored);
        return DropIgnored(ok);
      }
      c := DispatchEvent(m);
      hide Trace, Fits;
      ghost var trace := Trace(m, c, poisonThreshold);
      assert trace == [Examined(m)] + trace[1..];
    }

    method HandleMessage(m: Message)
      requires Valid()
      modifies this`messagesTotal, this`log, this`deeds
      ensures Valid()
      ensures |deeds| == |old(deeds)| + 1 && deeds[..|old(deeds)|] == old(deeds)
      ensures deeds[|old(deeds)|].Handled? && deeds[|old(deeds)|].m == m
    {
      hide Trace, Fits, Log, CountOf, TrailingFailures, LastReceive, Outcome, AllPossible;
      var c := Process(m);
      TraceCounts(old(log), m, c, poisonThreshold);
      LogGrows(deeds, Handled(m, c), poisonThreshold);
      deeds := deeds + [Handled(m, c)];
    }

    /** Receives one batch and records how that went. */
    method ReceiveBatch() returns (msgs: Option<seq<Message>>)
      requires Valid()
      modifies this`consecutiveReceiveFailures, this`lastSuccessfulReceive, this`failuresGauge, this`lastReceiveGauge
      modifies this`log, this`deeds
      ensures Valid()
      ensures msgs.None? ==> deeds == old(deeds) + [Failed]
      ensures msgs.Some? ==>
        |msgs.value| <= batchSize && exists now :: deeds == old(deeds) + [Got(now, msgs.value)]
    {
      hide Log, CountOf, TrailingFailures, LastReceive, AllPossible;
      msgs := Receive(batchSize);
      if msgs.None? {
        RecordReceiveFailure();
        log := log + [ReceiveFailed];
        ReceiveCounts(old(log), ReceiveFailed);
        LogGrows(deeds, Failed, poisonThreshold);
        deeds := deeds + [Failed];
      } else {
        var now := Time();
        RecordReceiveSuccess(now);
        log := log + [Received(now, msgs.value)];
        ReceiveCounts(old(log), Received(now, msgs.value));
        LogGrows(deeds, Got(now, msgs.value), poisonThreshold);
        deeds := deeds + [Got(now, msgs.value)];
      }
    }

    /** One batch: the number of messages received, or None when receiving failed. */
    method PollOnce() returns (n: Option<nat>)
      requires Valid()
      modifies this`consecutiveReceiveFailures, this`lastSuccessfulReceive, this`failuresGauge, this`lastReceiveGauge
      modifies this`messagesTotal, this`log, this`deeds
      ensures Valid() && old(deeds) < deeds
      ensures Polls(deeds) == Polls(old(deeds)) + 1
      ensures n.None? ==> deeds == old(deeds) + [Failed]
      ensures n.Some? ==>
        && n.value <= batchSize
        && Polled(deeds[|old(deeds)|..], n.value) && n.value == |deeds[|old(deeds)|].batch|
    {
      hide Valid(), Polls;
      var msgs := ReceiveBatch();
      assert deeds == old(deeds) + [deeds[|old(deeds)|]];
      PollsMore(old(deeds), deeds[|old(deeds)|]);
      if msgs.None? {
        return None;
      }
      for i := 0 to |msgs.value|
        invariant Valid() && old(deeds) < deeds
        invariant Polls(deeds) == Polls(old(deeds)) + 1
        invariant Polled(deeds[|old(deeds)|..], i) && deeds[|old(deeds)|].batch == msgs.value
      {
        ghost var before := deeds;
        HandleMessage(msgs.value[i]);
        assert deeds == before + [deeds[|before|]];
        PollsMore(before, deeds[|before|]);
        assert deeds[|old(deeds)|..] == before[|old(deeds)|..] + [deeds[|before|]];
        PolledMore(before[|old(deeds)|..], i, deeds[|before|]);
      }
      n := Some(|msgs.value|);
    }

    /** The poll loop, for as many polls as fit before the context is cancelled. */
    method Start(polls: nat)
      requires Valid()
      modifies this`consecutiveReceiveFailures, this`lastSuccessfulReceive, this`failuresGauge, this`lastReceiveGauge
      modifies this`messagesTotal, this`log, this`deeds
      ensures Valid() && old(deeds) <= deeds
      ensures Polls(deeds) == Polls(old(deeds)) + polls
    {
      hide Valid(), Polls, Polled;
      for i := 0 to polls
        invariant Valid() && old(deeds) <= deeds && Polls(deeds) == Polls(old(deeds)) + i
      {
        var n := PollOnce();
      }
    }
  }

  lemma PollsMore(ds: seq<Deed>, d: Deed)
    ensures Polls(ds + [d]) == Polls(ds) + if d.Handled? then 0 else 1
  {
    assert (ds + [d])[..|ds|] == ds;
  }

  lemma PolledMore(ds: seq<Deed>, n: nat, d: Deed)
    requires Polled(ds, n) && n < |ds[0].batch| && d.Handled? && d.m == ds[0].batch[n]
    ensures Polled(ds + [d], n + 1) && (ds + [d])[0] == ds[0]
  {
    var more := ds + [d];
    assert more[0] == ds[0] && more[n + 1] == d;
    assert forall i | 1 <= i <= n :: more[i] == ds[i];
  }

  // ----- Lemmas about counting -----

  lemma LogGrows(ds: seq<Deed>, d: Deed, threshold: nat)
    requires AllPossible(ds, threshold) && Possible(d, threshold)
    ensures AllPossible(ds + [d], threshold)
    ensures Log(ds + [d], threshold) == Log(ds, threshold) + ActsOf(d, threshold)
  {
    assert (ds + [d])[..|ds|] == ds;
  }

  lemma {:induction false} CountAppend(a: seq<Act>, b: seq<Act>, t: Tally)
    ensures CountOf(a + b, t) == CountOf(a, t) + CountOf(b, t)
  {
    if b == [] {
      assert a + b == a;
    } else {
      assert (a + b)[..|a + b| - 1] == a + b[..|b| - 1];
      CountAppend(a, b[..|b| - 1], t);
    }
  }

  lemma {:induction false} DeletesAppend(a: seq<Act>, b: seq<Act>)
    ensures Deletes(a + b) == Deletes(a) + Deletes(b)
  {
    if b == [] {
      assert a + b == a;
    } else {
      assert (a + b)[..|a + b| - 1] == a + b[..|b| - 1];
      DeletesAppend(a, b[..|b| - 1]);
    }
  }

  lemma {:induction false} NoCounts(a: seq<Act>)
    requires forall i | 0 <= i < |a| :: a[i].Examined? || a[i].Listed? || a[i].Sent?
    ensures forall t :: CountOf(a, t) == 0
    ensures Deletes(a) == 0
  {
    if a != [] { NoCounts(a[..|a| - 1]); }
  }

  /** Handling a message is counted at most once, as often as it is deleted, and is no receive. */
  lemma TraceCounts(log: seq<Act>, m: Message, c: Course, threshold: nat)
    requires Fits(m, c, threshold)
    ensures var after := log + Trace(m, c, threshold);
      && TrailingFailures(after) == TrailingFailures(log)
      && LastReceive(after) == LastReceive(log)
      && Deletes(after) == Deletes(log) + (if Outcome(c).Some? then 1 else 0)
      && forall t :: CountOf(after, t) == CountOf(log, t) + if Outcome(c) == Some(t) then 1 else 0
  {
    var trace := Trace(m, c, threshold);
    NoReceives(log, trace);
    DeletesAppend(log, trace);
    forall t ensures CountOf(log + trace, t) == CountOf(log, t) + CountOf(trace, t) {
      CountAppend(log, trace, t);
    }
    EndOfTrace(m, c, threshold);
  }

  lemma CountedOnce(a: seq<Act>, counted: Act, deleted: Act)
    requires counted.Counted? && deleted.DeleteTried?
    ensures Deletes(a + [counted, deleted]) == Deletes(a) + 1
    ensures forall t :: CountOf(a + [counted, deleted], t) == CountOf(a, t) + if t == counted.tally then 1 else 0
  {
    var s := a + [counted, deleted];
    assert s[..|s| - 1] == a + [counted] && (a + [counted])[..|a|] == a;
  }

  lemma EndOfTrace(m: Message, c: Course, threshold: nat)
    requires Fits(m, c, threshold)
    ensures Deletes(Trace(m, c, threshold)) == if Outcome(c).Some? then 1 else 0
    ensures forall t :: CountOf(Trace(m, c, threshold), t) == if Outcome(c) == Some(t) then 1 else 0
  {
    hide Matching, Fits;
    var s := Trace(m, c, threshold);
    if Outcome(c).None? {
      NoCounts(s);
    } else {
      var n := |s| - 2;
      assert s == s[..n] + [Counted(m, Outcome(c).value), s[n + 1]] && s[n + 1].DeleteTried?;
      NoCounts(s[..n]);
      CountedOnce(s[..n], s[n], s[n + 1]);
    }
  }

  lemma {:induction false} NoReceives(log: seq<Act>, a: seq<Act>)
    requires forall i | 0 <= i < |a| :: !a[i].ReceiveFailed? && !a[i].Received?
    ensures TrailingFailures(log + a) == TrailingFailures(log)
    ensures LastReceive(log + a) == LastReceive(log)
  {
    if a == [] {
      assert log + a == log;
    } else {
      assert (log + a)[..|log + a| - 1] == log + a[..|a| - 1];
      NoReceives(log, a[..|a| - 1]);
    }
  }

  lemma ReceiveCounts(log: seq<Act>, a: Act)
    requires a.ReceiveFailed? || a.Received?
    ensures TrailingFailures(log + [a]) == if a.ReceiveFailed? then TrailingFailures(log) + 1 else 0
    ensures LastReceive(log + [a]) == if a.Received? then Some(a.at) else LastReceive(log)
    ensures Deletes(log + [a]) == Deletes(log)
    ensures forall t :: CountOf(log + [a], t) == CountOf(log, t)
  {
    assert (log + [a])[..|log|] == log;
  }
}
