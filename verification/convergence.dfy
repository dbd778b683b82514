/** Reconciles that interfere: what stale and new leaders with the same desired set do to the zone
    under any interleaving, with any call failing, lost or late (apps/dokploy/lb-controller.ts:157-184). */
module Convergence {
  import opened Ordering
  import opened Dns
  import opened Reconcile
  import opened Cluster
  import opened LeaderSafety

  /** Every reconcile that has listed and not ended wants `D`. */
  ghost predicate AllWant(s: State, D: set<Ip>) {
    forall k :: k in s.ticks && k.pc.Reconciling? && Writing(k.pc.r) ==> SetOf(k.pc.r.desired) == D
  }

  lemma PhaseStep(s: State, e: Event, D: set<Ip>)
    requires Inv(s) && Enabled(s, e) && AllWant(s, D) && LateAgrees(s.zone, D)
    ensures Approaches(s.zone, Next(s, e).zone, D) && LateAgrees(Next(s, e).zone, D)
  {
    match e
    case Turn(t, o) =>
      assert TickOk(s, s.ticks[t]) by { assert s.ticks[t] in s.ticks; }
      TurnApproaches(s.zone, s.ticks[t].pc.r, o, D);
    case Delivered(w) => DeliverApproaches(s.zone, w, D);
    case _ =>
  }

  /** A phase: a stretch of a run in which every in-flight reconcile wants the same `D`. */
  ghost predicate Phase(ss: seq<State>, es: seq<Event>, D: set<Ip>) {
    Run(ss, es) && Inv(ss[0]) && LateAgrees(ss[0].zone, D) && forall k :: 0 <= k < |ss| ==> AllWant(ss[k], D)
  }

  lemma {:induction false} LateAgreesThroughout(ss: seq<State>, es: seq<Event>, D: set<Ip>, k: nat)
    requires Phase(ss, es, D) && k < |ss|
    ensures LateAgrees(ss[k].zone, D)
  {
    if k == 0 {
    } else {
      LateAgreesThroughout(ss, es, D, k - 1);
      InvRun(ss, es, k - 1);
      PhaseStep(ss[k - 1], es[k - 1], D);
    }
  }

  /** Through a phase, whatever is interleaved and fails, records inside D only grow and records outside D only
      shrink. */
  lemma {:induction false} PhaseIsMonotone(ss: seq<State>, es: seq<Event>, D: set<Ip>, i: nat, j: nat)
    requires Phase(ss, es, D) && i <= j < |ss|
    ensures Approaches(ss[i].zone, ss[j].zone, D)
  {
    if i == j {
    } else {
      PhaseIsMonotone(ss, es, D, i, j - 1);
      LateAgreesThroughout(ss, es, D, j - 1);
      InvRun(ss, es, j - 1);
      PhaseStep(ss[j - 1], es[j - 1], D);
    }
  }

  // --- One reconcile's own account ----------------------------------------------

  /** What a reconcile that listed during the phase can rely on at each of its control points. */
  ghost predicate OnTrack(z: Zone, r: Recon, D: set<Ip>) {
    match r
    case Listing(_) => false
    case Adding(d, existing, i) =>
      && i <= |d| && SetOf(d) == D
      && (forall k :: 0 <= k < i ==> d[k] in Contents(z))
      && (forall r :: r in existing && r.content in D ==> r.content in Contents(z))
      && (forall id :: id in z.records && z.records[id] !in D ==> Record(id, z.records[id]) in existing)
    case Deleting(d, existing, j) =>
      && j <= |existing| && SetOf(d) == D && D <= Contents(z)
      && (forall id :: id in z.records && z.records[id] !in D ==> Record(id, z.records[id]) in existing[j..])
    case Finished => Contents(z) == D
    case Failed => true
  }

  lemma OnTrackStays(z: Zone, z': Zone, r: Recon, D: set<Ip>)
    requires OnTrack(z, r, D) && Approaches(z, z', D)
    ensures OnTrack(z', r, D)
  {
    ServedStays(z, z', D);
    match r
    case Adding(d, _, i) => forall k | 0 <= k < i ensures d[k] in Contents(z') { assert d[k] in SetOf(d); }
    case Deleting(_, _, _) =>
    case Finished =>
      forall id | id in z.records ensures z.records[id] in D { assert z.records[id] in Contents(z); }
      forall ip | ip in Contents(z') ensures ip in D {
        var id :| id in z'.records && z'.records[id] == ip;
      }
    case _ =>
  }

  lemma OnTrackAdd(z: Zone, d: seq<Ip>, existing: seq<Record>, i: nat, o: Outcome, D: set<Ip>)
    requires ValidZone(z) && LateAgrees(z, D) && Known(z, existing) && OnTrack(z, Adding(d, existing, i), D)
    ensures var (z', r') := Step(z, Adding(d, existing, i), o); OnTrack(z', r', D)
  {
    var r := Adding(d, existing, i);
    var (z', r') := Step(z, r, o);
    TurnApproaches(z, r, o, D);
    OnTrackStays(z, z', r, D);
    if i < |d| {
      assert d[i] in SetOf(d);
      if d[i] in Listed(existing) {
        var x :| x in existing && x.content == d[i];
      } else if o == Replied {
        assert z'.records[z.nextId] == d[i];
      }
    } else {
      forall ip | ip in D ensures ip in Contents(z) {
        assert ip in d;
        var k :| 0 <= k < |d| && d[k] == ip;
      }
      assert existing[0..] == existing;
    }
  }

  lemma OnTrackDelete(z: Zone, d: seq<Ip>, existing: seq<Record>, j: nat, o: Outcome, D: set<Ip>)
    requires ValidZone(z) && LateAgrees(z, D) && Known(z, existing) && OnTrack(z, Deleting(d, existing, j), D)
    ensures var (z', r') := Step(z, Deleting(d, existing, j), o); OnTrack(z', r', D)
  {
    var r := Deleting(d, existing, j);
    var (z', r') := Step(z, r, o);
    TurnApproaches(z, r, o, D);
    OnTrackStays(z, z', r, D);
    if j < |existing| {
      assert existing[j..] == [existing[j]] + existing[j + 1..];
      assert existing[j].content in SetOf(d) <==> existing[j].content in d;
    } else {
      forall ip | ip in Contents(z) ensures ip in D {
        var id :| id in z.records && z.records[id] == ip;
      }
    }
  }

  lemma OnTrackTurn(z: Zone, r: Recon, o: Outcome, D: set<Ip>)
    requires ValidZone(z) && LateAgrees(z, D) && ReconOk(z, r) && Writing(r) && OnTrack(z, r, D)
    ensures var (z', r') := Step(z, r, o); OnTrack(z', r', D)
  {
    match r
    case Adding(d, existing, i) => OnTrackAdd(z, d, existing, i, o, D);
    case Deleting(d, existing, j) => OnTrackDelete(z, d, existing, j, o, D);
  }

  /** The list call missed no record outside `D`. One page of at most PAGE_SIZE records misses none at all. */
  ghost predicate MissesNone(z: Zone, page: seq<Record>, D: set<Ip>) {
    forall id :: id in z.records && z.records[id] !in D ==> Record(id, z.records[id]) in page
  }

  lemma ListIsOnTrack(z: Zone, d: seq<Ip>, page: seq<Record>, D: set<Ip>)
    requires IsPage(z, page) && SetOf(d) == D && MissesNone(z, page, D)
    ensures OnTrack(z, Adding(d, page, 0), D)
  {
    forall r | r in page ensures r.content in Contents(z) { assert Holds(z, r); }
  }

  ghost predicate TickOnTrack(s: State, t: nat, D: set<Ip>) {
    t < |s.ticks| && match s.ticks[t].pc
                     case Reconciling(r) => OnTrack(s.zone, r, D)
                     case pc => pc.Crashed?
  }

  lemma TickOnTrackStep(s: State, e: Event, t: nat, D: set<Ip>)
    requires Inv(s) && Enabled(s, e) && AllWant(s, D) && LateAgrees(s.zone, D) && TickOnTrack(s, t, D)
    ensures TickOnTrack(Next(s, e), t, D)
  {
    PhaseStep(s, e, D);
    if s.ticks[t].pc.Reconciling? { OnTrackStays(s.zone, Next(s, e).zone, s.ticks[t].pc.r, D); }
    if Owner(e) == Some(t) {
      assert TickOk(s, s.ticks[t]) by { assert s.ticks[t] in s.ticks; }
      OnTrackTurn(s.zone, s.ticks[t].pc.r, e.o, D);
    } else {
      OthersStand(s, e, t);
    }
  }

  lemma ListStep(s: State, D: set<Ip>, t: nat, page: seq<Record>)
    requires Enabled(s, RecordsRead(t, Some(page))) && AllWant(Next(s, RecordsRead(t, Some(page))), D)
    requires MissesNone(s.zone, page, D)
    ensures TickOnTrack(Next(s, RecordsRead(t, Some(page))), t, D)
  {
    var s' := Next(s, RecordsRead(t, Some(page)));
    assert s'.ticks[t] in s'.ticks;
    ListIsOnTrack(s.zone, s.ticks[t].pc.r.desired, page, D);
  }

  lemma {:induction false} OnTrackThroughout(ss: seq<State>, es: seq<Event>, D: set<Ip>, a: nat, t: nat,
                                             page: seq<Record>, k: nat)
    requires Phase(ss, es, D) && a < k < |ss|
    requires es[a] == RecordsRead(t, Some(page)) && MissesNone(ss[a].zone, page, D)
    ensures TickOnTrack(ss[k], t, D)
  {
    if k == a + 1 {
      assert ss[k] == Next(ss[a], es[a]) && AllWant(ss[k], D);
      ListStep(ss[a], D, t, page);
    } else {
      LateAgreesThroughout(ss, es, D, k - 1);
      InvRun(ss, es, k - 1);
      OnTrackThroughout(ss, es, D, a, t, page, k - 1);
      TickOnTrackStep(ss[k - 1], es[k - 1], t, D);
    }
  }

  /** Convergence under interference: in a phase where all in-flight reconciles want `D`, a reconcile that listed
      in the phase and finished without error has left the zone at exactly `D`, and there it stays. */
  lemma ConvergesUnderInterference(ss: seq<State>, es: seq<Event>, D: set<Ip>, a: nat, t: nat, page: seq<Record>,
                                   b: nat, k: nat)
    requires Phase(ss, es, D) && a < b <= k < |ss|
    requires es[a] == RecordsRead(t, Some(page)) && MissesNone(ss[a].zone, page, D)
    requires t < |ss[b].ticks| && ss[b].ticks[t].pc == Reconciling(Finished)
    ensures Contents(ss[b].zone) == D && Contents(ss[k].zone) == D
  {
    OnTrackThroughout(ss, es, D, a, t, page, b);
    PhaseIsMonotone(ss, es, D, b, k);
    OnTrackStays(ss[b].zone, ss[k].zone, Finished, D);
  }

  lemma OnePageMissesNone(z: Zone, page: seq<Record>, D: set<Ip>)
    requires IsPage(z, page) && |z.records| <= PAGE_SIZE
    ensures MissesNone(z, page, D)
  {
    SmallZoneIsListed(z, page);
  }
}
