/**
 The controller plays the rounds: reconciling one SecretSync after the other on an undisturbed server,
 with fresh caches each time, leaves exactly what `Play` says. So what is proved of `Play` holds of
 the controller.
 */
module Playing {
  import opened Objects
  import opened History
  import opened Api
  import opened Plan
  import opened Convergence
  import opened Evidence
  import opened Reconcile

  predicate Timely(turns: seq<Turn>, clock: nat) {
    && (turns != [] ==> clock <= turns[0].at)
    && (forall i, j | 0 <= i < j < |turns| :: turns[i].at <= turns[j].at)
  }

  /** One turn in the terms of the plan. */
  lemma TurnMatches(v: View, u: View, c: View, t: Turn, interval: nat)
    requires u == v.(clock := t.at) && c == Reconciled(u, t.k, interval).view
    ensures c == Take(v, t, interval) && c.clock == t.at
  {
    hide Elsewhere;
    Footprint(u, t.k, interval);
    ClockStays(u, c, t.k);
  }

  lemma ClockStays(v: View, u: View, k: Key)
    requires Elsewhere(v, u, k)
    ensures u.clock == v.clock
  {
  }

  method Run(controller: Reconciler, turns: seq<Turn>)
    requires Inv(controller.server.w) && controller.server.w.h != []
    requires controller.server.quiet && controller.server.uncached && controller.reader
    requires Timely(turns, Now(controller.server.w).clock)
    modifies controller.server
    ensures Inv(controller.server.w) && controller.server.w.h != []
    ensures ViewOf(Now(controller.server.w)) ==
            Play(ViewOf(Now(old(controller.server.w))), turns, controller.ReconcileInterval())
  {
    hide Inv, ViewOf, Reconciled, Take, Fresh;
    var server, interval := controller.server, controller.ReconcileInterval();
    ghost var v := ViewOf(Now(server.w));
    assert turns[..0] == [];
    for i := 0 to |turns|
      invariant Inv(server.w) && server.w.h != []
      invariant ViewOf(Now(server.w)) == Play(v, turns[..i], interval)
      invariant Now(server.w).clock == if i == 0 then Now(old(server.w)).clock else turns[i - 1].at
    {
      ghost var before := server.w;
      server.CatchUp(turns[i].at);
      CaughtUp(before, server.w, turns[i].at);
      ghost var ready := server.w;
      var r, final := Step(controller, turns[i].k);
      TurnMatches(ViewOf(Now(before)), ViewOf(Now(ready)), ViewOf(Now(server.w)), turns[i], interval);
      ClockInView(server.w);
      assert turns[..i + 1][..i] == turns[..i];
    }
    assert turns[..|turns|] == turns;
  }

  lemma ClockInView(w: World)
    requires w.h != []
    ensures ViewOf(Now(w)).clock == Now(w).clock
  {
  }

  lemma CaughtUp(a: World, b: World, at: nat)
    requires a.h != [] && b.h != [] && Now(b) == Now(a).(clock := at)
    requires b.secretAt == b.syncAt == |b.h| - 1
    ensures ViewOf(Now(b)) == ViewOf(Now(a)).(clock := at)
    ensures Fresh(b)
  {
  }

  method Step(controller: Reconciler, k: Key) returns (r: Result, final: Option<Status>)
    requires Inv(controller.server.w) && controller.server.w.h != []
    requires controller.server.w.secretAt < |controller.server.w.h|
             && controller.server.w.syncAt < |controller.server.w.h|
    requires Fresh(controller.server.w)
    requires controller.server.quiet && controller.server.uncached && controller.reader
    modifies controller.server
    ensures Inv(controller.server.w) && controller.server.w.h != []
    ensures var e := Reconciled(ViewOf(Now(old(controller.server.w))), k, controller.ReconcileInterval());
            ViewOf(Now(controller.server.w)) == e.view && r == e.result && final == e.final
  {
    hide Inv, ViewOf, Reconciled, Fresh;
    ghost var copy, listed, proof;
    r, final, copy, listed, proof := controller.Reconcile(k);
  }
}
