/**
 Which of several SecretSyncs may claim one target: an order by creation time and then by name,
 in which a claim that already reports TargetConflict has no say.
 */
module Arbitration {
  import opened Objects
  import opened History
  import opened Api

  type Claims = map<Key, SecretSync>

  /** Lexicographic order, as on Go strings. */
  predicate Less(a: string, b: string) {
    if b == "" then false
    else if a == "" then true
    else if a[0] != b[0] then a[0] < b[0]
    else Less(a[1..], b[1..])
  }

  /** The claim of `a`, held under key `ka`, is stronger than that of `b`. */
  predicate TakesPrecedence(ka: Key, a: SecretSync, kb: Key, b: SecretSync) {
    if a.created != b.created then a.created < b.created else Less(ka.name, kb.name)
  }

  predicate Defeated(s: Status) {
    s.state == Failing && s.reason == TargetConflict
  }

  /** Another live claim on the target of `k` is stronger. */
  predicate Rival(claims: Claims, k: Key, ss: SecretSync, o: Key)
    requires o in claims
  {
    && o.ns == k.ns
    && o.name != k.name
    && TargetName(o, claims[o]) == TargetName(k, ss)
    && !Defeated(claims[o].status)
    && TakesPrecedence(o, claims[o], k, ss)
  }

  predicate Blocked(claims: Claims, k: Key, ss: SecretSync) {
    exists o | o in claims :: Rival(claims, k, ss, o)
  }

  // ----- What the order says, in terms of times and names -----

  /** At `i` the names first differ, and `a` has ended there or has the smaller character. */
  predicate SmallerAt(a: string, b: string, i: nat) {
    && i <= |a| && i < |b| && a[..i] == b[..i]
    && (i < |a| ==> a[i] < b[i])
  }

  lemma {:induction false} LessFromTheFirstDifference(a: string, b: string)
    ensures Less(a, b) <==> exists i: nat | i <= |a| :: SmallerAt(a, b, i)
  {
    forall i: nat | 0 < i <= |a| && SmallerAt(a, b, i) ensures a[0] == b[0] {
      assert a[..i][0] == b[..i][0];
    }
    if a == "" || b == "" {
      if b != "" { assert SmallerAt(a, b, 0); }
    } else if a[0] != b[0] {
      if a[0] < b[0] { assert SmallerAt(a, b, 0); }
    } else {
      LessFromTheFirstDifference(a[1..], b[1..]);
      if i: nat :| i <= |a[1..]| && SmallerAt(a[1..], b[1..], i) {
        assert a[..i + 1] == [a[0]] + a[1..][..i] && b[..i + 1] == [b[0]] + b[1..][..i];
        assert SmallerAt(a, b, i + 1);
      }
      if i: nat :| i <= |a| && SmallerAt(a, b, i) {
        assert a[1..][..i - 1] == a[..i][1..] && b[1..][..i - 1] == b[..i][1..];
        assert SmallerAt(a[1..], b[1..], i - 1);
      }
    }
  }

  /** The first writer: created earlier or, at the same time, with the smaller name. */
  predicate Older(ka: Key, a: SecretSync, kb: Key, b: SecretSync) {
    || a.created < b.created
    || (a.created == b.created && exists i: nat | i <= |ka.name| :: SmallerAt(ka.name, kb.name, i))
  }

  lemma PrecedenceIsAge(ka: Key, a: SecretSync, kb: Key, b: SecretSync)
    ensures TakesPrecedence(ka, a, kb, b) <==> Older(ka, a, kb, b)
  {
    LessFromTheFirstDifference(ka.name, kb.name);
  }

  /** The name a SecretSync declares for its target, or its own. */
  function Declared(k: Key, ss: SecretSync): string {
    if ss.secretName == "" then k.name else ss.secretName
  }

  /** Another SecretSync of the namespace for the same target, older, and not itself refused for a conflict. */
  predicate StrongerClaim(claims: Claims, k: Key, ss: SecretSync, o: Key)
    requires o in claims
  {
    && o.ns == k.ns && o.name != k.name
    && Declared(o, claims[o]) == Declared(k, ss)
    && !(claims[o].status.state == Failing && claims[o].status.reason == TargetConflict)
    && Older(o, claims[o], k, ss)
  }

  predicate Contested(claims: Claims, k: Key, ss: SecretSync) {
    exists o | o in claims :: StrongerClaim(claims, k, ss, o)
  }

  lemma BlockedByStronger(claims: Claims, k: Key, ss: SecretSync)
    ensures Blocked(claims, k, ss) <==> Contested(claims, k, ss)
  {
    hide TakesPrecedence, Older;
    forall o | o in claims ensures Rival(claims, k, ss, o) <==> StrongerClaim(claims, k, ss, o) {
      PrecedenceIsAge(o, claims[o], k, ss);
    }
    if Blocked(claims, k, ss) {
      var o :| o in claims && Rival(claims, k, ss, o);
      assert StrongerClaim(claims, k, ss, o);
    }
    if Contested(claims, k, ss) {
      var o :| o in claims && StrongerClaim(claims, k, ss, o);
      assert Rival(claims, k, ss, o);
    }
  }

  /** The search loop over the cached list; None when listing fails. */
  method FindConflictingOwner(server: Server, k: Key, ss: SecretSync) returns (r: Option<bool>)
    requires Inv(server.w)
    modifies server`w, server`failed
    ensures Inv(server.w) && Later(k, old(server.w), server.w)
    ensures server.failed == old(server.failed) + if r.None? then 1 else 0
    ensures r.Some? ==> (r.value <==> Blocked(Bare(server.w.h[server.w.syncAt].now.syncs), k, ss))
    ensures r.Some? ==> (r.value <==> Contested(Bare(server.w.h[server.w.syncAt].now.syncs), k, ss))
    ensures server.quiet ==> server.w == old(server.w) && r.Some?
  {
    hide Inv, Later, Contested;
    var list := server.ListSyncs(k);
    if list.Unreadable? {
      return None;
    }
    var items := Bare(list.item);
    BlockedByStronger(items, k, ss);
    var rest := set o | o in items && o.ns == k.ns;
    r := Some(false);
    while rest != {}
      invariant rest <= items.Keys
      invariant forall o | o in items && o.ns == k.ns && o !in rest :: !Rival(items, k, ss, o)
      decreases rest
    {
      var o :| o in rest;
      rest := rest - {o};
      var other := items[o];
      if o.name == k.name {
        continue;
      }
      if TargetName(o, other) != TargetName(k, ss) {
        continue;
      }
      if Defeated(other.status) {
        continue;
      }
      if TakesPrecedence(o, other, k, ss) {
        assert Rival(items, k, ss, o);
        return Some(true);
      }
    }
  }

  // ----- Precedence is a strict total order -----

  lemma {:induction false} LessTotal(a: string, b: string)
    ensures a == b <==> !Less(a, b) && !Less(b, a)
    ensures !(Less(a, b) && Less(b, a))
  {
    if a != "" && b != "" && a[0] == b[0] {
      LessTotal(a[1..], b[1..]);
      assert a == [a[0]] + a[1..] && b == [b[0]] + b[1..];
    }
  }

  lemma {:induction false} LessTransitive(a: string, b: string, c: string)
    requires Less(a, b) && Less(b, c)
    ensures Less(a, c)
  {
    if a != "" && b != "" && c != "" && a[0] == b[0] == c[0] {
      LessTransitive(a[1..], b[1..], c[1..]);
    }
  }

  /** On distinctly named claimants of one namespace precedence is irreflexive, total and transitive. */
  lemma PrecedenceIsStrictTotalOrder(ka: Key, a: SecretSync, kb: Key, b: SecretSync, kc: Key, c: SecretSync)
    requires ka.ns == kb.ns == kc.ns
    ensures TakesPrecedence(ka, a, kb, b) <==> Older(ka, a, kb, b)
    ensures !TakesPrecedence(ka, a, ka, a)
    ensures !(TakesPrecedence(ka, a, kb, b) && TakesPrecedence(kb, b, ka, a))
    ensures ka != kb ==> TakesPrecedence(ka, a, kb, b) || TakesPrecedence(kb, b, ka, a)
    ensures TakesPrecedence(ka, a, kb, b) && TakesPrecedence(kb, b, kc, c) ==> TakesPrecedence(ka, a, kc, c)
  {
    LessTotal(ka.name, ka.name);
    LessTotal(ka.name, kb.name);
    PrecedenceIsAge(ka, a, kb, b);
    hide Older;
    if Less(ka.name, kb.name) && Less(kb.name, kc.name) {
      LessTransitive(ka.name, kb.name, kc.name);
    }
  }

  /** The claimants of one target. */
  function Claimants(claims: Claims, target: Key): set<Key> {
    set k | k in claims && TargetKey(k, claims[k]) == target
  }

  predicate IsFirst(claims: Claims, group: set<Key>, m: Key)
    requires group <= claims.Keys
  {
    m in group && forall o | o in group && o != m :: TakesPrecedence(m, claims[m], o, claims[o])
  }

  lemma {:induction false} FirstExists(claims: Claims, group: set<Key>, ns: string) returns (m: Key)
    requires group <= claims.Keys && group != {}
    requires forall k | k in group :: k.ns == ns
    ensures IsFirst(claims, group, m)
  {
    var x :| x in group;
    if group == {x} {
      m := x;
    } else {
      var y := FirstExists(claims, group - {x}, ns);
      m := if TakesPrecedence(x, claims[x], y, claims[y]) then x else y;
      PrecedenceIsStrictTotalOrder(x, claims[x], y, claims[y], y, claims[y]);
      forall o | o in group && o != m ensures TakesPrecedence(m, claims[m], o, claims[o]) {
        PrecedenceIsStrictTotalOrder(x, claims[x], y, claims[y], o, claims[o]);
      }
    }
  }

  predicate Unblocked(claims: Claims, k: Key)
    requires k in claims
  {
    !Blocked(claims, k, claims[k])
  }

  function Live(claims: Claims, target: Key): set<Key> {
    set k | k in Claimants(claims, target) && !Defeated(claims[k].status)
  }

  /** Among the live claimants of a target exactly one is unblocked: the oldest, the smaller name deciding ties. */
  lemma OneLiveClaimWins(claims: Claims, target: Key) returns (m: Key)
    requires Live(claims, target) != {}
    ensures forall k | k in Live(claims, target) :: Unblocked(claims, k) <==> k == m
    ensures IsFirst(claims, Live(claims, target), m)
    ensures forall o | o in Live(claims, target) && o != m :: Older(m, claims[m], o, claims[o])
    ensures forall o | o in Live(claims, target) :: claims[m].created <= claims[o].created
  {
    hide Older;
    var live := Live(claims, target);
    m := FirstExists(claims, live, target.ns);
    forall k | k in live ensures Unblocked(claims, k) <==> k == m {
      if k == m {
        forall o | o in claims ensures !Rival(claims, m, claims[m], o) {
          if o.ns == m.ns {
            PrecedenceIsStrictTotalOrder(o, claims[o], m, claims[m], m, claims[m]);
          }
        }
      } else {
        assert Rival(claims, k, claims[k], m);
      }
    }
    forall o | o in live && o != m
      ensures Older(m, claims[m], o, claims[o]) && claims[m].created <= claims[o].created
    {
      PrecedenceIsAge(m, claims[m], o, claims[o]);
    }
  }

  /** Defeated claims included, somebody can always go ahead: losers never deadlock one another. */
  lemma SomebodyIsUnblocked(claims: Claims, target: Key) returns (m: Key)
    requires Claimants(claims, target) != {}
    ensures m in Claimants(claims, target) && Unblocked(claims, m)
  {
    if Live(claims, target) != {} {
      m := OneLiveClaimWins(claims, target);
    } else {
      m :| m in Claimants(claims, target);
      forall o | o in claims ensures !Rival(claims, m, claims[m], o) {
        if o in Claimants(claims, target) { assert o !in Live(claims, target); }
      }
    }
  }
}
