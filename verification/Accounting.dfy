/**
 What the log of any listener run keeps: nothing is deleted uncounted, a message counted
 dispatched has reached every match, and no message is parsed more often than the threshold.
 `QueueListener.Valid` ties every listener's log and counters to a `Log`.
 */
module Accounting {
  import opened Objects
  import opened Listener

  // ----- Every deletion follows its count -----

  predicate CountedAt(log: seq<Act>, i: int, m: Message) {
    0 <= i < |log| && log[i].Counted? && log[i].m == m
  }

  predicate DeletedAt(log: seq<Act>, i: int, m: Message) {
    0 <= i < |log| && log[i].DeleteTried? && log[i].m == m
  }

  predicate Paired(log: seq<Act>) {
    && (forall i | 0 <= i < |log| && log[i].DeleteTried? :: CountedAt(log, i - 1, log[i].m))
    && (forall i | 0 <= i < |log| && log[i].Counted? :: DeletedAt(log, i + 1, log[i].m))
  }

  lemma PairedAppend(a: seq<Act>, b: seq<Act>)
    requires Paired(a) && Paired(b)
    ensures Paired(a + b)
  {
    var s := a + b;
    forall i | 0 <= i < |s| && s[i].DeleteTried? ensures CountedAt(s, i - 1, s[i].m) {
      if i >= |a| { assert CountedAt(b, i - |a| - 1, b[i - |a|].m); } else { assert CountedAt(a, i - 1, a[i].m); }
    }
    forall i | 0 <= i < |s| && s[i].Counted? ensures DeletedAt(s, i + 1, s[i].m) {
      if i >= |a| { assert DeletedAt(b, i - |a| + 1, b[i - |a|].m); } else { assert DeletedAt(a, i + 1, a[i].m); }
    }
  }

  lemma PairedTrace(m: Message, c: Course, threshold: nat)
    requires Fits(m, c, threshold)
    ensures Paired(Trace(m, c, threshold))
  {
    hide Matching, Fits;
  }

  /** An uncounted message is never deleted, and a counted one is deleted at once. */
  lemma {:induction false} DeletesFollowCounts(ds: seq<Deed>, threshold: nat)
    requires AllPossible(ds, threshold)
    ensures Paired(Log(ds, threshold))
  {
    if ds != [] {
      var last := ds[|ds| - 1];
      DeletesFollowCounts(ds[..|ds| - 1], threshold);
      assert Paired(ActsOf(last, threshold)) by {
        if last.Handled? { PairedTrace(last.m, last.c, threshold); }
      }
      PairedAppend(Log(ds[..|ds| - 1], threshold), ActsOf(last, threshold));
    }
  }

  // ----- The counters add up -----

  function Total(log: seq<Act>): nat {
    CountOf(log, Dispatched) + CountOf(log, Unmatched) + CountOf(log, Ignored)
    + CountOf(log, Undecodable) + CountOf(log, Poisoned)
  }

  lemma {:induction false} CountersSumToDeletes(ds: seq<Deed>, threshold: nat)
    requires AllPossible(ds, threshold)
    ensures Total(Log(ds, threshold)) == Deletes(Log(ds, threshold))
  {
    hide CountOf, Deletes, Trace, Fits, Matching;
    if ds == [] {
      NoCounts(Log(ds, threshold));
    } else {
      var last := ds[|ds| - 1];
      var before := Log(ds[..|ds| - 1], threshold);
      CountersSumToDeletes(ds[..|ds| - 1], threshold);
      if last.Handled? {
        TraceCounts(before, last.m, last.c, threshold);
      } else {
        ReceiveCounts(before, ActsOf(last, threshold)[0]);
      }
    }
  }

  // ----- Dispatched means sent to everyone -----

  /**
   At `n` the list was read for `m`, which had just been parsed, and between `n` and `i` the message
   was sent once to every match of that list, in list order, and nothing else happened.
   */
  predicate SentFromList(log: seq<Act>, n: int, i: int, m: Message) {
    && 0 < n < i <= |log| && m.body.Event?
    && log[n - 1] == Examined(m)
    && log[n].Listed? && log[n].m == m && log[n].answer.Some?
    && var ks := Matching(log[n].answer.value, m.body.source);
    && ks != [] && i == n + 1 + |ks|
    && forall j | 0 <= j < |ks| :: log[n + 1 + j] == Sent(m, ks[j])
  }

  /** Just before `i` the list was read for `m`, which had just been parsed, and nothing on it matched. */
  predicate FoundNoMatch(log: seq<Act>, i: int, m: Message) {
    && 1 < i <= |log| && m.body.Event?
    && log[i - 2] == Examined(m)
    && log[i - 1].Listed? && log[i - 1].m == m && log[i - 1].answer.Some?
    && Matching(log[i - 1].answer.value, m.body.source) == []
  }

  /** The count at `i` is true to the message, and to the recorded list. */
  ghost predicate TrueCount(log: seq<Act>, i: int, threshold: nat)
    requires 0 <= i < |log| && log[i].Counted?
  {
    var m := log[i].m;
    && (log[i].tally == Poisoned <==> m.dequeues > threshold)
    && (log[i].tally == Undecodable <==> m.dequeues <= threshold && m.body.Malformed?)
    && (log[i].tally == Ignored <==> m.dequeues <= threshold && m.body.NotActionable?)
    && (log[i].tally in {Dispatched, Unmatched} <==> m.dequeues <= threshold && m.body.Event?)
    && (log[i].tally == Dispatched ==> exists n :: SentFromList(log, n, i, log[i].m))
    && (log[i].tally == Unmatched ==> FoundNoMatch(log, i, log[i].m))
  }

  ghost predicate TrueCounts(log: seq<Act>, threshold: nat) {
    forall i | 0 <= i < |log| && log[i].Counted? :: TrueCount(log, i, threshold)
  }

  lemma SentShifted(a: seq<Act>, b: seq<Act>, c: seq<Act>, n: int, i: int, m: Message)
    requires SentFromList(b, n, i, m)
    ensures SentFromList(a + b + c, |a| + n, |a| + i, m)
  {
    hide Matching;
    var s := a + b + c;
    assert forall j | 0 <= j < |b| :: s[|a| + j] == b[j];
    var ks := Matching(b[n].answer.value, m.body.source);
    forall j | 0 <= j < |ks| ensures s[|a| + n + 1 + j] == Sent(m, ks[j]) {
      assert s[|a| + (n + 1 + j)] == b[n + 1 + j];
    }
  }

  lemma CountShifted(a: seq<Act>, b: seq<Act>, c: seq<Act>, i: nat, threshold: nat)
    requires i < |b| && b[i].Counted? && TrueCount(b, i, threshold)
    ensures (a + b + c)[|a| + i] == b[i] && TrueCount(a + b + c, |a| + i, threshold)
  {
    hide Matching, SentFromList;
    var s := a + b + c;
    assert forall j | 0 <= j < |b| :: s[|a| + j] == b[j];
    if b[i].tally == Dispatched {
      var n :| SentFromList(b, n, i, b[i].m);
      SentShifted(a, b, c, n, i, b[i].m);
    }
    if b[i].tally == Unmatched {
      assert s[|a| + (i - 1)] == b[i - 1] && s[|a| + (i - 2)] == b[i - 2];
    }
  }

  lemma TrueAppend(a: seq<Act>, b: seq<Act>, threshold: nat)
    requires TrueCounts(a, threshold) && TrueCounts(b, threshold)
    ensures TrueCounts(a + b, threshold)
  {
    hide TrueCount;
    var s := a + b;
    forall i | 0 <= i < |s| && s[i].Counted? ensures TrueCount(s, i, threshold) {
      if i < |a| {
        CountShifted([], a, b, i, threshold);
        assert [] + a + b == s;
      } else {
        CountShifted(a, b, [], i - |a|, threshold);
        assert a + b + [] == s;
      }
    }
  }

  lemma TrueTrace(m: Message, c: Course, threshold: nat)
    requires Fits(m, c, threshold)
    ensures TrueCounts(Trace(m, c, threshold), threshold)
  {
    hide Matching;
    var s := Trace(m, c, threshold);
    if c.Dispatch? {
      var ks := Matching(c.items, m.body.source);
      assert SentFromList(s, 1, |ks| + 2, m);
    }
  }

  /**
   Every count is the right one. Poisoned is a message beyond the threshold, undecodable and ignored say
   what parsing yielded. A message counted dispatched was sent once, in list order, to every match of the
   list that was read for it, and one counted unmatched was looked up in a list without a match.
   */
  lemma {:induction false} DispatchedReachesAll(ds: seq<Deed>, threshold: nat)
    requires AllPossible(ds, threshold)
    ensures TrueCounts(Log(ds, threshold), threshold)
  {
    if ds != [] {
      var last := ds[|ds| - 1];
      DispatchedReachesAll(ds[..|ds| - 1], threshold);
      assert TrueCounts(ActsOf(last, threshold), threshold) by {
        if last.Handled? { TrueTrace(last.m, last.c, threshold); }
      }
      TrueAppend(Log(ds[..|ds| - 1], threshold), ActsOf(last, threshold), threshold);
    }
  }

  // ----- Redelivery is bounded -----

  function Examinations(log: seq<Act>, id: string): nat {
    if log == [] then 0
    else
      var last := log[|log| - 1];
      Examinations(log[..|log| - 1], id) + if last.Examined? && last.m.id == id then 1 else 0
  }

  predicate Delivers(d: Deed, id: string) {
    d.Handled? && d.m.id == id
  }

  /** The queue's promise: a message arrives with a count of at least one that every delivery raises. */
  predicate RisingDequeues(ds: seq<Deed>, id: string) {
    && (forall i | 0 <= i < |ds| && Delivers(ds[i], id) :: ds[i].m.dequeues >= 1)
    && (forall i, j | 0 <= i < j < |ds| && Delivers(ds[i], id) && Delivers(ds[j], id) ::
          ds[i].m.dequeues < ds[j].m.dequeues)
  }

  lemma {:induction false} ExaminationsAppend(a: seq<Act>, b: seq<Act>, id: string)
    ensures Examinations(a + b, id) == Examinations(a, id) + Examinations(b, id)
  {
    if b == [] {
      assert a + b == a;
    } else {
      assert (a + b)[..|a + b| - 1] == a + b[..|b| - 1];
      ExaminationsAppend(a, b[..|b| - 1], id);
    }
  }

  lemma {:induction false} NoExaminations(a: seq<Act>, id: string)
    requires forall i | 0 <= i < |a| :: !a[i].Examined?
    ensures Examinations(a, id) == 0
  {
    if a != [] { NoExaminations(a[..|a| - 1], id); }
  }

  lemma ExaminedOnce(m: Message, c: Course, threshold: nat, id: string)
    requires Fits(m, c, threshold)
    ensures Examinations(Trace(m, c, threshold), id) == if m.id == id && m.dequeues <= threshold then 1 else 0
  {
    hide Matching;
    var s := Trace(m, c, threshold);
    if m.dequeues > threshold {
      NoExaminations(s, id);
    } else {
      assert s == [Examined(m)] + s[1..];
      ExaminationsAppend([Examined(m)], s[1..], id);
      assert [Examined(m)][..0] == [];
      NoExaminations(s[1..], id);
    }
  }

  lemma {:induction false} ExaminationsBelow(ds: seq<Deed>, threshold: nat, id: string, most: nat)
    requires AllPossible(ds, threshold) && RisingDequeues(ds, id)
    requires forall i | 0 <= i < |ds| && Delivers(ds[i], id) :: ds[i].m.dequeues <= most
    ensures Examinations(Log(ds, threshold), id) <= most
    ensures Examinations(Log(ds, threshold), id) <= threshold
    decreases |ds|
  {
    hide Trace, Fits, Matching, Examinations;
    if ds == [] {
      NoExaminations(Log(ds, threshold), id);
    } else {
      var last := ds[|ds| - 1];
      var before := ds[..|ds| - 1];
      ExaminationsAppend(Log(before, threshold), ActsOf(last, threshold), id);
      if Delivers(last, id) {
        ExaminedOnce(last.m, last.c, threshold, id);
        ExaminationsBelow(before, threshold, id, last.m.dequeues - 1);
      } else {
        ExaminationsBelow(before, threshold, id, most);
        if last.Handled? {
          ExaminedOnce(last.m, last.c, threshold, id);
        } else {
          NoExaminations(ActsOf(last, threshold), id);
        }
      }
    }
  }

  /** However often it is redelivered, a message is parsed at most `threshold` times. */
  lemma ParsedAtMostThreshold(ds: seq<Deed>, threshold: nat, id: string)
    requires AllPossible(ds, threshold) && RisingDequeues(ds, id)
    ensures Examinations(Log(ds, threshold), id) <= threshold
  {
    ExaminationsBelow(ds, threshold, id, MostDequeues(ds));
  }

  function MostDequeues(ds: seq<Deed>): (most: nat)
    ensures forall i | 0 <= i < |ds| && ds[i].Handled? :: ds[i].m.dequeues <= most
  {
    if ds == [] then 0
    else
      var rest := MostDequeues(ds[..|ds| - 1]);
      var last := ds[|ds| - 1];
      if last.Handled? && last.m.dequeues > rest then last.m.dequeues else rest
  }

  // ----- What the failure counter means -----

  /** Of every receive in the log, in order, whether it worked. */
  function Receives(log: seq<Act>): seq<bool> {
    if log == [] then []
    else
      var last := log[|log| - 1];
      Receives(log[..|log| - 1]) + if last.Received? then [true] else if last.ReceiveFailed? then [false] else []
  }

  /** The trailing run: the last `n` receives failed, and the one before them, if any, worked. */
  lemma {:induction false} FailuresAreTheTrailingRun(log: seq<Act>)
    ensures var rs, n := Receives(log), TrailingFailures(log);
      && n <= |rs|
      && (forall i | |rs| - n <= i < |rs| :: !rs[i])
      && (n < |rs| ==> rs[|rs| - n - 1])
  {
    if log != [] { FailuresAreTheTrailingRun(log[..|log| - 1]); }
  }
}
