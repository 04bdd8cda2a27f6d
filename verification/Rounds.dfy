/**
 When a single round of reconciles is enough: exactly when every live claim that precedes the one
 holding the target has been refused before the holder's last turn.
 */
module Rounds {
  import opened Objects
  import opened History
  import opened Api
  import opened Arbitration
  import opened Plan
  import opened Convergence

  /** The claim `o` is live and precedes that of `k`. */
  predicate Ahead(claims: Claims, k: Key, o: Key)
    requires k in claims && o in claims
  {
    o != k && !Defeated(claims[o].status) && TakesPrecedence(o, claims[o], k, claims[k])
  }

  /** The turns before the last one of `k`. */
  function BeforeLast(turns: seq<Turn>, k: Key): seq<Turn> {
    if turns == [] then []
    else if turns[|turns| - 1].k == k then turns[..|turns| - 1]
    else BeforeLast(turns[..|turns| - 1], k)
  }

  /** Every claimant that is live at the start and precedes `k` has a turn before the last one of `k`. */
  predicate ClearedFor(v: View, group: set<Key>, k: Key, turns: seq<Turn>)
    requires group <= v.syncs.Keys && k in group
  {
    forall o | o in group && Ahead(v.syncs, k, o) :: o in Turned(BeforeLast(turns, k))
  }

  predicate Holds(v: View, target: Key, k: Key)
    requires k in v.syncs
  {
    Holder(v, target) == Some(v.syncs[k].uid)
  }

  /** The schedule clears the way for whoever holds the target at the start, if anybody does. */
  predicate Cleared(v: View, target: Key, group: set<Key>, turns: seq<Turn>)
    requires group <= v.syncs.Keys
  {
    forall h | h in group && Holds(v, target, h) :: ClearedFor(v, group, h, turns)
  }

  /** Blocked means that some claimant is ahead. */
  lemma BlockedMeansAhead(v: View, target: Key, group: set<Key>, k: Key)
    requires Contest(v, target, group) && k in group
    ensures group <= v.syncs.Keys
    ensures Blocked(v.syncs, k, v.syncs[k]) <==> exists o | o in group :: Ahead(v.syncs, k, o)
  {
    hide Healthy, Holder, TakesPrecedence;
    if Blocked(v.syncs, k, v.syncs[k]) {
      var o :| o in v.syncs && Rival(v.syncs, k, v.syncs[k], o);
      assert o in group && Ahead(v.syncs, k, o);
    }
    if exists o | o in group :: Ahead(v.syncs, k, o) {
      var o :| o in group && Ahead(v.syncs, k, o);
      assert Rival(v.syncs, k, v.syncs[k], o);
    }
  }

  /** What one turn does to the claimants: at most one is concerned, and it is refused or takes the target. */
  predicate Turning(v: View, u: View, target: Key, group: set<Key>, t: Turn)
    requires group <= v.syncs.Keys && group <= u.syncs.Keys
  {
    && (forall k | k in group ::
          && u.syncs[k].(status := v.syncs[k].status, finalizer := v.syncs[k].finalizer) == v.syncs[k]
          && (k != t.k ==> u.syncs[k].status == v.syncs[k].status))
    && (t.k !in group ==> Holder(u, target) == Holder(v, target))
    && (t.k in group ==>
          if (exists o | o in group :: Ahead(v.syncs, t.k, o)) || Holder(v, target) !in {None, Some(v.syncs[t.k].uid)}
          then Defeated(u.syncs[t.k].status) && Holder(u, target) == Holder(v, target)
          else u.syncs[t.k].status.state == InSync && Holds(u, target, t.k))
  }

  lemma TurnDoes(v: View, target: Key, group: set<Key>, t: Turn, interval: nat)
    requires Contest(v, target, group)
    ensures var u := Take(v, t, interval);
      Contest(u, target, group) && group <= v.syncs.Keys && group <= u.syncs.Keys && Turning(v, u, target, group, t)
  {
    hide Reconciled, Contest, Holder, Blocked, Defeated, TakesPrecedence, Ahead;
    var c := v.(clock := t.at);
    var u := Take(v, t, interval);
    ClockIsNoClaim(v, target, group, t.at);
    HolderReadsTarget(v, c, target);
    ContestGroup(v, target, group);
    if t.k in group {
      BlockedMeansAhead(c, target, group, t.k);
      MemberStep(c, target, group, t.k, interval);
    } else {
      BystanderStep(c, target, group, t.k, interval);
    }
    ContestGroup(u, target, group);
  }

  lemma TurnedMore(turns: seq<Turn>)
    requires turns != []
    ensures Turned(turns) == Turned(turns[..|turns| - 1]) + {turns[|turns| - 1].k}
  {
    assert turns == turns[..|turns| - 1] + [turns[|turns| - 1]];
  }

  // ----- The target is held at the start -----

  /** While `h` holds the target: who had a turn is refused, and `h` as the turns before its last one have it. */
  predicate HeldSoFar(v: View, u: View, target: Key, group: set<Key>, h: Key, turns: seq<Turn>)
    requires group <= v.syncs.Keys && h in group
  {
    && Contest(u, target, group) && group <= u.syncs.Keys
    && Holder(u, target) == Some(v.syncs[h].uid)
    && (forall k | k in group ::
          u.syncs[k].(status := v.syncs[k].status, finalizer := v.syncs[k].finalizer) == v.syncs[k])
    && (forall k | k in group && k !in Turned(turns) :: u.syncs[k].status == v.syncs[k].status)
    && (forall k | k in group && k in Turned(turns) && k != h :: Defeated(u.syncs[k].status))
    && (h in Turned(turns) ==>
          if ClearedFor(v, group, h, turns) then u.syncs[h].status.state == InSync else Defeated(u.syncs[h].status))
  }

  lemma HeldTurn(v: View, u: View, target: Key, group: set<Key>, h: Key, turns: seq<Turn>, interval: nat)
    requires Contest(v, target, group) && h in group && Holds(v, target, h) && turns != []
    requires group <= v.syncs.Keys && HeldSoFar(v, u, target, group, h, turns[..|turns| - 1])
    ensures HeldSoFar(v, Take(u, turns[|turns| - 1], interval), target, group, h, turns)
  {
    hide Take, Contest, Holder, TakesPrecedence, Turned;
    var before, t := turns[..|turns| - 1], turns[|turns| - 1];
    TurnedMore(turns);
    TurnDoes(u, target, group, t, interval);
    if t.k in group && t.k != h {
      DistinctUids(v, target, group, t.k, h);
    }
    if t.k == h {
      assert BeforeLast(turns, h) == before;
      forall o | o in group ensures Ahead(u.syncs, h, o) <==> Ahead(v.syncs, h, o) && o !in Turned(before) {
        SamePrecedence(v.syncs, u.syncs, h, o);
      }
    }
  }

  lemma SamePrecedence(a: Claims, b: Claims, k: Key, o: Key)
    requires k in a && o in a && k in b && o in b && a[k].created == b[k].created && a[o].created == b[o].created
    ensures TakesPrecedence(o, a[o], k, a[k]) == TakesPrecedence(o, b[o], k, b[k])
  {
  }

  lemma {:induction false} HeldRun(v: View, target: Key, group: set<Key>, h: Key, turns: seq<Turn>, interval: nat)
    requires Contest(v, target, group) && h in group && group <= v.syncs.Keys && Holds(v, target, h)
    ensures HeldSoFar(v, Play(v, turns, interval), target, group, h, turns)
  {
    hide Take, Contest, Holder, HeldSoFar;
    if turns == [] {
      HeldStart(v, target, group, h);
    } else {
      HeldRun(v, target, group, h, turns[..|turns| - 1], interval);
      HeldTurn(v, Play(v, turns[..|turns| - 1], interval), target, group, h, turns, interval);
    }
  }

  lemma HeldStart(v: View, target: Key, group: set<Key>, h: Key)
    requires Contest(v, target, group) && h in group && group <= v.syncs.Keys && Holds(v, target, h)
    ensures HeldSoFar(v, v, target, group, h, [])
  {
    hide Contest, Holder;
  }

  // ----- The target is free at the start -----

  /** Whoever holds the target is InSync, and no live claim precedes it. */
  predicate Led(u: View, target: Key, group: set<Key>)
    requires group <= u.syncs.Keys
  {
    forall w | w in group && Holds(u, target, w) ::
      u.syncs[w].status.state == InSync && forall o | o in group :: !Ahead(u.syncs, w, o)
  }

  lemma LedTurn(u: View, target: Key, group: set<Key>, t: Turn, interval: nat)
    requires Contest(u, target, group) && group <= u.syncs.Keys && Led(u, target, group)
    ensures var x := Take(u, t, interval);
      Contest(x, target, group) && group <= x.syncs.Keys && Led(x, target, group)
  {
    hide Take, Contest, Holder, TakesPrecedence;
    TurnDoes(u, target, group, t, interval);
    var x := Take(u, t, interval);
    forall w | w in group && Holds(x, target, w)
      ensures x.syncs[w].status.state == InSync && forall o | o in group :: !Ahead(x.syncs, w, o)
    {
      if t.k in group && t.k != w { DistinctUids(u, target, group, t.k, w); }
      forall o | o in group ensures !Ahead(x.syncs, w, o) {
        SamePrecedence(u.syncs, x.syncs, w, o);
      }
    }
  }

  lemma {:induction false} LedRun(v: View, target: Key, group: set<Key>, turns: seq<Turn>, interval: nat)
    requires Contest(v, target, group) && group <= v.syncs.Keys && Led(v, target, group)
    ensures var u := Play(v, turns, interval);
      Contest(u, target, group) && group <= u.syncs.Keys && Led(u, target, group)
  {
    hide Take, Contest, Led;
    if turns != [] {
      LedRun(v, target, group, turns[..|turns| - 1], interval);
      LedTurn(Play(v, turns[..|turns| - 1], interval), target, group, turns[|turns| - 1], interval);
    }
  }

  // ----- Who takes a free target -----

  /** `m` is live and precedes every other live claimant. */
  predicate LiveFirst(v: View, group: set<Key>, m: Key)
    requires group <= v.syncs.Keys
  {
    && m in group && !Defeated(v.syncs[m].status)
    && forall o | o in group && o != m && !Defeated(v.syncs[o].status) :: TakesPrecedence(m, v.syncs[m], o, v.syncs[o])
  }

  /**
   While nobody holds the target, the first live claim `m` is as it was; whoever has taken it is `m` or
   a claim that was refused at the start and is older.
   */
  predicate FreeSoFar(v: View, u: View, target: Key, group: set<Key>, m: Key)
    requires group <= v.syncs.Keys && m in group
  {
    && Contest(u, target, group) && group <= u.syncs.Keys
    && (forall k | k in group ::
          u.syncs[k].(status := v.syncs[k].status, finalizer := v.syncs[k].finalizer) == v.syncs[k])
    && (Holder(u, target).None? ==> u.syncs[m].status == v.syncs[m].status)
    && (Holder(u, target).None? ==>
          forall k | k in group && !Defeated(u.syncs[k].status) :: u.syncs[k].status == v.syncs[k].status)
    && (forall w | w in group && Holds(u, target, w) && w != m :: Older(w, v.syncs[w], m, v.syncs[m]))
  }

  lemma FreeTurn(v: View, u: View, target: Key, group: set<Key>, m: Key, t: Turn, interval: nat)
    requires Contest(v, target, group) && group <= v.syncs.Keys && LiveFirst(v, group, m)
    requires FreeSoFar(v, u, target, group, m)
    ensures FreeSoFar(v, Take(u, t, interval), target, group, m)
  {
    hide Take, Contest, Holder, TakesPrecedence, Older;
    TurnDoes(u, target, group, t, interval);
    var x := Take(u, t, interval);
    if t.k == m && Holder(u, target).None? {
      forall o | o in group ensures !Ahead(u.syncs, m, o) {
        SamePrecedence(v.syncs, u.syncs, m, o);
        SameNamespace(v, target, group, o, m);
        PrecedenceIsStrictTotalOrder(m, v.syncs[m], o, v.syncs[o], o, v.syncs[o]);
      }
    }
    forall w | w in group && Holds(x, target, w) && w != m ensures Older(w, v.syncs[w], m, v.syncs[m]) {
      if t.k in group && t.k != w { DistinctUids(u, target, group, t.k, w); }
      if !Holds(u, target, w) {
        assert w == t.k && !Ahead(u.syncs, w, m);
        SamePrecedence(v.syncs, u.syncs, w, m);
        SameNamespace(v, target, group, w, m);
        PrecedenceIsStrictTotalOrder(m, v.syncs[m], w, v.syncs[w], w, v.syncs[w]);
        PrecedenceIsAge(w, v.syncs[w], m, v.syncs[m]);
      }
    }
  }

  lemma SameNamespace(v: View, target: Key, group: set<Key>, a: Key, b: Key)
    requires Contest(v, target, group) && a in group && b in group
    ensures a.ns == target.ns && b.ns == target.ns
  {
    hide Healthy, Holder;
  }

  lemma {:induction false} FreeRun(v: View, target: Key, group: set<Key>, m: Key, turns: seq<Turn>, interval: nat)
    requires Contest(v, target, group) && group <= v.syncs.Keys && LiveFirst(v, group, m)
    requires Holder(v, target).None?
    ensures FreeSoFar(v, Play(v, turns, interval), target, group, m)
  {
    hide Take, Contest, Holder, FreeSoFar;
    if turns == [] {
      FreeStart(v, target, group, m);
    } else {
      FreeRun(v, target, group, m, turns[..|turns| - 1], interval);
      FreeTurn(v, Play(v, turns[..|turns| - 1], interval), target, group, m, turns[|turns| - 1], interval);
    }
  }

  lemma FreeStart(v: View, target: Key, group: set<Key>, m: Key)
    requires Contest(v, target, group) && group <= v.syncs.Keys && m in group && Holder(v, target).None?
    ensures FreeSoFar(v, v, target, group, m)
  {
    hide Contest, Holder;
  }

  /**
   First writer wins: a round over a free target ends with a claimant holding it InSync that is older than
   every other claimant that was live at the start, and all others are refused.
   */
  lemma FreeTargetGoesToTheOldest(v: View, target: Key, group: set<Key>, turns: seq<Turn>, interval: nat)
    returns (w: Key)
    requires Contest(v, target, group) && Round(turns, group) && Holder(v, target).None?
    ensures group <= v.syncs.Keys
    ensures Decided(Play(v, turns, interval), target, group, w)
    ensures forall o | o in group && o != w && !Defeated(v.syncs[o].status) :: Older(w, v.syncs[w], o, v.syncs[o])
    ensures forall o | o in group && !Defeated(v.syncs[o].status) :: v.syncs[w].created <= v.syncs[o].created
  {
    hide Play, Contest, Healthy, Holder, TakesPrecedence, Older;
    ContestGroup(v, target, group);
    w := RoundSettles(v, target, group, turns, interval);
    var u := Play(v, turns, interval);
    LedRun(v, target, group, turns, interval);
    LiveClaimants(v, target, group);
    var live := Live(v.syncs, target);
    if live != {} {
      var m := OneLiveClaimWins(v.syncs, target);
      FreeRun(v, target, group, m, turns, interval);
      SameNamespace(v, target, group, w, m);
      forall o | o in live ensures o != w ==> Older(w, v.syncs[w], o, v.syncs[o]) {
        SameNamespace(v, target, group, o, m);
        PrecedenceIsStrictTotalOrder(w, v.syncs[w], m, v.syncs[m], o, v.syncs[o]);
        PrecedenceIsAge(w, v.syncs[w], m, v.syncs[m]);
        PrecedenceIsAge(m, v.syncs[m], o, v.syncs[o]);
        PrecedenceIsAge(w, v.syncs[w], o, v.syncs[o]);
      }
    }
    forall o | o in live ensures v.syncs[w].created <= v.syncs[o].created {
      if o != w { OlderIsNotYounger(w, v.syncs[w], o, v.syncs[o]); }
    }
  }

  lemma LiveClaimants(v: View, target: Key, group: set<Key>)
    requires Contest(v, target, group)
    ensures group <= v.syncs.Keys && Live(v.syncs, target) <= group
    ensures forall o | o in group :: o in Live(v.syncs, target) <==> !Defeated(v.syncs[o].status)
  {
    hide Healthy, Holder;
  }

  lemma OlderIsNotYounger(ka: Key, a: SecretSync, kb: Key, b: SecretSync)
    requires Older(ka, a, kb, b)
    ensures a.created <= b.created
  {
  }

  // ----- Both -----

  /**
   One round decides a contest if and only if its schedule clears the way for the initial holder. With
   no holder it always does.
   */
  lemma OneRoundDecides(v: View, target: Key, group: set<Key>, turns: seq<Turn>, interval: nat)
    requires Contest(v, target, group) && Round(turns, group)
    ensures group <= v.syncs.Keys
    ensures (exists w :: Decided(Play(v, turns, interval), target, group, w)) <==> Cleared(v, target, group, turns)
  {
    hide Play, Contest, Healthy, Defeated, ClearedFor;
    ContestGroup(v, target, group);
    var u := Play(v, turns, interval);
    var w := RoundSettles(v, target, group, turns, interval);
    if h :| h in group && Holds(v, target, h) {
      OnlyHolder(v, target, group, h);
      HeldRun(v, target, group, h, turns, interval);
      OnlyHolder(u, target, group, w);
      assert w == h;
      if ClearedFor(v, group, h, turns) {
        assert Decided(u, target, group, h);
      } else {
        DefeatedIsNotDecided(u, target, group, h);
      }
    } else {
      LedRun(v, target, group, turns, interval);
      assert Decided(u, target, group, w);
    }
  }

  lemma OnlyHolder(v: View, target: Key, group: set<Key>, h: Key)
    requires Contest(v, target, group) && group <= v.syncs.Keys && h in group && Holds(v, target, h)
    ensures forall k | k in group && Holds(v, target, k) :: k == h
  {
    hide Healthy, Holder;
  }

  lemma DefeatedIsNotDecided(u: View, target: Key, group: set<Key>, h: Key)
    requires Contest(u, target, group) && group <= u.syncs.Keys && h in group && Holds(u, target, h)
    requires Defeated(u.syncs[h].status)
    ensures !exists w :: Decided(u, target, group, w)
  {
    hide Healthy, Holder;
  }
}
