/** The lock is not checked again once a reconcile has begun, so stale leaders may go on writing, each from a listing
    that other writes have overtaken and for its own set of healthy addresses. What any number of them leave behind,
    exactly, from wherever each of them is and however their turns interleave
    (apps/dokploy/lb-controller.ts:157-184). */
module StaleLeader {
  import opened Ordering
  import opened Dns
  import opened Reconcile

  /** A turn of one leader's loops, and how the write ends that it may issue. */
  datatype Play = Play(leader: nat, outcome: Outcome)

  predicate PlaysOf(n: nat, plays: seq<Play>) { forall p :: p in plays ==> p.leader < n }

  /** Zone and control points after the turns `plays`. */
  function Played(z: Zone, rs: seq<Recon>, plays: seq<Play>): (result: (Zone, seq<Recon>))
    requires PlaysOf(|rs|, plays)
    ensures |result.1| == |rs|
  {
    if plays == [] then (z, rs)
    else
      var p := plays[|plays| - 1];
      var (z', rs') := Played(z, rs, plays[..|plays| - 1]);
      var (z'', r) := Step(z', rs'[p.leader], p.outcome);
      (z'', rs'[p.leader := r])
  }

  lemma {:induction false} PlayedFirst(z: Zone, rs: seq<Recon>, plays: seq<Play>)
    requires PlaysOf(|rs|, plays) && plays != []
    ensures var p := plays[0];
            && p in plays && PlaysOf(|rs|, plays[1..])
            && var (z', r) := Step(z, rs[p.leader], p.outcome);
               Played(z, rs, plays) == Played(z', rs[p.leader := r], plays[1..])
  {
    var front, rest := plays[..|plays| - 1], plays[1..];
    assert plays[0] in plays && forall p :: p in rest ==> p in plays;
    if |plays| == 1 {
      assert front == [] && rest == [];
    } else {
      assert front[0] == plays[0] && front[1..] == rest[..|rest| - 1] && rest[|rest| - 1] == plays[|plays| - 1];
      PlayedFirst(z, rs, front);
    }
  }

  /** The listing may be out of date, but its ids were handed out before `z`. */
  ghost predicate Old(z: Zone, r: Recon) { Writing(r) ==> forall x :: x in r.existing ==> x.id < z.nextId }

  ghost predicate AllOld(z: Zone, rs: seq<Recon>) { forall t :: 0 <= t < |rs| ==> Old(z, rs[t]) }

  function Without(z: Zone, ids: set<nat>): Zone { z.(records := z.records - ids) }

  /** `z'` is `z` with new records for exactly the addresses `ips`. */
  ghost predicate Grown(z: Zone, z': Zone, ips: set<Ip>) {
    && ValidZone(z') && Kept(z, z') && z.nextId <= z'.nextId
    && (forall id :: id in z'.records && id < z.nextId ==> id in z.records)
    && (forall id :: id in z'.records && id >= z.nextId ==> z'.records[id] in ips)
    && (forall ip :: ip in ips ==> exists id :: z.nextId <= id && id in z'.records && z'.records[id] == ip)
  }

  lemma GrownContents(z: Zone, z': Zone, ips: set<Ip>)
    requires ValidZone(z) && Grown(z, z', ips)
    ensures Contents(z') == Contents(z) + ips
  {
    forall ip | ip in Contents(z) ensures ip in Contents(z') {
      var id :| id in z.records && z.records[id] == ip;
      assert z'.records[id] == ip;
    }
  }

  // --- What one leader still has to do ------------------------------------------

  /** Ids that a leader at `r` still deletes, and addresses that it still adds. */
  function ToGo(r: Recon): set<nat> {
    match r
    case Adding(d, page, _) => Doomed(page, d)
    case Deleting(d, page, j) => if j <= |page| then Doomed(page[j..], d) else {}
    case _ => {}
  }

  function ToPut(r: Recon): set<Ip> {
    match r
    case Adding(d, page, i) => if i <= |d| then Added(page, d[i..]) else {}
    case _ => {}
  }

  function Removed(w: Option<Write>): set<nat> { if w.Some? && w.value.Remove? then {w.value.id} else {} }

  function Supplied(w: Option<Write>): set<Ip> { if w.Some? && w.value.Add? then {w.value.ip} else {} }

  /** An answered turn takes its write off the leader's share. */
  lemma Share(r: Recon)
    ensures ToGo(r) == ToGo(Onward(r)) + Removed(NextWrite(r))
    ensures ToPut(r) == ToPut(Onward(r)) + Supplied(NextWrite(r))
  {
    match r
    case Adding(d, page, i) =>
      if i < |d| { assert d[i..] == [d[i]] + d[i + 1..]; } else { assert page[0..] == page; }
    case Deleting(d, page, j) =>
      if j < |page| {
        assert page[j..] == [page[j]] + page[j + 1..];
        assert forall x :: x in page[j..] <==> x == page[j] || x in page[j + 1..];
      }
    case _ =>
  }

  // --- All leaders together -----------------------------------------------------

  function AllToGo(rs: seq<Recon>): set<nat> { set t, id | 0 <= t < |rs| && id in ToGo(rs[t]) :: id }

  function AllToPut(rs: seq<Recon>): set<Ip> { set t, ip | 0 <= t < |rs| && ip in ToPut(rs[t]) :: ip }

  lemma AllToGoNext(rs: seq<Recon>, t: nat, r: Recon, more: set<nat>)
    requires t < |rs| && ToGo(rs[t]) == ToGo(r) + more
    ensures AllToGo(rs) == AllToGo(rs[t := r]) + more
  {
    var rs' := rs[t := r];
    forall id | id in AllToGo(rs) ensures id in AllToGo(rs') + more {
      var u :| 0 <= u < |rs| && id in ToGo(rs[u]);
      assert id in more || id in ToGo(rs'[u]);
    }
    forall id | id in AllToGo(rs') + more ensures id in AllToGo(rs) {
      if id in more {
        assert id in ToGo(rs[t]);
      } else {
        var u :| 0 <= u < |rs| && id in ToGo(rs'[u]);
        assert id in ToGo(rs[u]);
      }
    }
  }

  lemma AllToPutNext(rs: seq<Recon>, t: nat, r: Recon, more: set<Ip>)
    requires t < |rs| && ToPut(rs[t]) == ToPut(r) + more
    ensures AllToPut(rs) == AllToPut(rs[t := r]) + more
  {
    var rs' := rs[t := r];
    forall ip | ip in AllToPut(rs) ensures ip in AllToPut(rs') + more {
      var u :| 0 <= u < |rs| && ip in ToPut(rs[u]);
      assert ip in more || ip in ToPut(rs'[u]);
    }
    forall ip | ip in AllToPut(rs') + more ensures ip in AllToPut(rs) {
      if ip in more {
        assert ip in ToPut(rs[t]);
      } else {
        var u :| 0 <= u < |rs| && ip in ToPut(rs'[u]);
        assert ip in ToPut(rs[u]);
      }
    }
  }

  lemma ToGoOld(z: Zone, rs: seq<Recon>)
    requires AllOld(z, rs)
    ensures forall id :: id in AllToGo(rs) ==> id < z.nextId
  {
    forall id | id in AllToGo(rs) ensures id < z.nextId {
      var t :| 0 <= t < |rs| && id in ToGo(rs[t]);
      assert Old(z, rs[t]);
    }
  }

  lemma StepOld(z: Zone, rs: seq<Recon>, p: Play)
    requires ValidZone(z) && AllOld(z, rs) && p.leader < |rs|
    ensures var (z', r) := Step(z, rs[p.leader], p.outcome);
            ValidZone(z') && z.nextId <= z'.nextId && AllOld(z', rs[p.leader := r])
  {
    var r := rs[p.leader];
    assert Old(z, r);
    if r.Deleting? && r.j < |r.existing| { assert r.existing[r.j] in r.existing; }
  }

  // --- All of them finished -----------------------------------------------------

  /** What is grown from the zone behind a write is grown from the zone before it, the write counted in. */
  lemma GrownBefore(z: Zone, gone: set<nat>, end: Zone, put: set<Ip>, w: Option<Write>)
    requires var z' := if w.None? then z else Apply(z, w.value); Grown(Without(z', gone), end, put)
    requires ValidZone(z) && forall id :: id in gone ==> id < z.nextId
    ensures Grown(Without(z, gone + Removed(w)), end, put + Supplied(w))
  {
    match w
    case None => assert gone + {} == gone && put + {} == put;
    case Some(Add(ip)) =>
      assert gone + {} == gone;
      var z' := Without(Apply(z, Add(ip)), gone);
      assert z'.records[z.nextId] == ip && end.records[z.nextId] == ip;
    case Some(Remove(id)) =>
      assert z.records - {id} - gone == z.records - (gone + {id}) && put + {} == put;
  }

  ghost predicate AllFinished(rs: seq<Recon>) { forall t :: 0 <= t < |rs| ==> rs[t].Finished? }

  lemma {:induction false} FailedStays(z: Zone, rs: seq<Recon>, plays: seq<Play>, t: nat)
    requires PlaysOf(|rs|, plays) && t < |rs| && rs[t].Failed?
    ensures Played(z, rs, plays).1[t].Failed?
  {
    if plays == [] {
    } else {
      FailedStays(z, rs, plays[..|plays| - 1], t);
    }
  }

  lemma NothingLeft(z: Zone, rs: seq<Recon>)
    requires ValidZone(z) && AllFinished(rs)
    ensures Grown(Without(z, AllToGo(rs)), z, AllToPut(rs))
  {
    assert AllToGo(rs) == {} && AllToPut(rs) == {};
    assert z.records - {} == z.records;
  }

  /** Any number of leaders, wherever each of them is and from whatever listing, their turns in any order, all of them
      finished in the end: exactly the records that some of them still has to delete are gone, every other record is
      kept, and there are new records for exactly the addresses that some of them still has to add. */
  lemma {:induction false} LeadersExact(z: Zone, rs: seq<Recon>, plays: seq<Play>)
    requires ValidZone(z) && AllOld(z, rs) && PlaysOf(|rs|, plays) && AllFinished(Played(z, rs, plays).1)
    ensures Grown(Without(z, AllToGo(rs)), Played(z, rs, plays).0, AllToPut(rs))
    decreases |plays|
  {
    if plays == [] {
      NothingLeft(z, rs);
    } else {
      var p, rest := plays[0], plays[1..];
      PlayedFirst(z, rs, plays);
      var w := NextWrite(rs[p.leader]);
      var (z', r) := Step(z, rs[p.leader], p.outcome);
      var rs' := rs[p.leader := r];
      if w.Some? && !p.outcome.Replied? {
        FailedStays(z', rs', rest, p.leader);
        assert false;
      }
      StepOld(z, rs, p);
      LeadersExact(z', rs', rest);
      Share(rs[p.leader]);
      AllToGoNext(rs, p.leader, r, Removed(w));
      AllToPutNext(rs, p.leader, r, Supplied(w));
      ToGoOld(z, rs);
      GrownBefore(z, AllToGo(rs'), Played(z, rs, plays).0, AllToPut(rs'), w);
    }
  }

  /** So make-before-break is a promise to one leader only: together they leave the hostname empty exactly when, right
      after the last listing or at any later moment, none has an address to add and every record is doomed. */
  lemma LeadersEmptyTheHostname(z: Zone, rs: seq<Recon>, plays: seq<Play>)
    requires ValidZone(z) && AllOld(z, rs) && PlaysOf(|rs|, plays) && AllFinished(Played(z, rs, plays).1)
    ensures Played(z, rs, plays).0.records == map[] <==> AllToPut(rs) == {} && z.records.Keys <= AllToGo(rs)
  {
    var left, end := Without(z, AllToGo(rs)), Played(z, rs, plays).0;
    LeadersExact(z, rs, plays);
    if end.records == map[] {
      forall id | id in z.records ensures id in AllToGo(rs) { assert id in left.records ==> id in end.records; }
    } else if AllToPut(rs) == {} {
      var id :| id in end.records;
      assert id < z.nextId && id in left.records;
    }
  }

  // --- Some of them failed or stopped -------------------------------------------

  lemma WithinBefore(z: Zone, w: Write, o: Outcome, end: Zone, gone: set<nat>, put: set<Ip>)
    requires ValidZone(z) && Within(Settle(z, w, o), end, gone, put)
    requires if w.Add? then w.ip in put else w.id in gone && w.id < z.nextId
    ensures Within(z, end, gone, put)
  {
  }

  lemma WithinMore(z: Zone, end: Zone, gone: set<nat>, put: set<Ip>, gone': set<nat>, put': set<Ip>)
    requires Within(z, end, gone, put) && gone <= gone' && put <= put'
    ensures Within(z, end, gone', put')
  {
  }

  lemma Shrinks(rs: seq<Recon>, t: nat, r: Recon)
    requires t < |rs| && (r == Onward(rs[t]) || r.Failed?)
    ensures AllToGo(rs[t := r]) <= AllToGo(rs) && AllToPut(rs[t := r]) <= AllToPut(rs)
    ensures Removed(NextWrite(rs[t])) <= AllToGo(rs) && Supplied(NextWrite(rs[t])) <= AllToPut(rs)
  {
    Share(rs[t]);
    if r.Failed? {
      AllToGoNext(rs, t, r, ToGo(rs[t]));
      AllToPutNext(rs, t, r, ToPut(rs[t]));
    } else {
      AllToGoNext(rs, t, r, Removed(NextWrite(rs[t])));
      AllToPutNext(rs, t, r, Supplied(NextWrite(rs[t])));
    }
    forall id | id in ToGo(rs[t]) ensures id in AllToGo(rs) {}
    forall ip | ip in ToPut(rs[t]) ensures ip in AllToPut(rs) {}
  }

  /** Whatever fails, is lost, is late or stops: the leaders delete only what they still had to delete, and add only
      what they still had to add. */
  lemma {:induction false} LeadersBounded(z: Zone, rs: seq<Recon>, plays: seq<Play>)
    requires ValidZone(z) && AllOld(z, rs) && PlaysOf(|rs|, plays)
    ensures Within(z, Played(z, rs, plays).0, AllToGo(rs), AllToPut(rs))
    decreases |plays|
  {
    if plays == [] {
    } else {
      var p, rest := plays[0], plays[1..];
      PlayedFirst(z, rs, plays);
      var w := NextWrite(rs[p.leader]);
      var (z', r) := Step(z, rs[p.leader], p.outcome);
      var end := Played(z, rs, plays).0;
      StepOld(z, rs, p);
      LeadersBounded(z', rs[p.leader := r], rest);
      Shrinks(rs, p.leader, r);
      WithinMore(z', end, AllToGo(rs[p.leader := r]), AllToPut(rs[p.leader := r]), AllToGo(rs), AllToPut(rs));
      if w.Some? {
        ToGoOld(z, rs);
        WithinBefore(z, w.value, p.outcome, end, AllToGo(rs), AllToPut(rs));
      }
    }
  }

  /** What is on the way from the start is counted in. */
  ghost predicate LateCounted(z: Zone, gone: set<nat>, put: set<Ip>) {
    forall w :: w in z.late ==> if w.Add? then w.ip in put else w.id in gone
  }

  lemma DeliverWithin(z: Zone, z': Zone, gone: set<nat>, put: set<Ip>, w: Write)
    requires Within(z, z', gone, put) && LateCounted(z, gone, put) && w in z'.late
    ensures Within(z, Deliver(z', w), gone, put)
  {
    assert if w.Add? then w.ip in put else w.id in gone;
    assert forall x :: x in Deliver(z', w).late ==> x in z'.late;
  }

  /** Nor do writes on the way, theirs or earlier ones that are counted in, when they take effect. */
  lemma {:induction false} LandedBounded(z: Zone, z': Zone, gone: set<nat>, put: set<Ip>, ws: seq<Write>)
    requires Within(z, z', gone, put) && LateCounted(z, gone, put) && Landing(z', ws)
    ensures Within(z, Landed(z', ws), gone, put)
    decreases |ws|
  {
    if ws == [] {
    } else {
      DeliverWithin(z, z', gone, put, ws[0]);
      LandedBounded(z, Deliver(z', ws[0]), gone, put, ws[1..]);
    }
  }

  // --- A leader that has just listed --------------------------------------------

  lemma ListingIsExact(z: Zone, page: seq<Record>)
    requires IsPage(z, page) && ListsAll(z, page)
    ensures Listed(page) == Contents(z)
    ensures forall r :: r in page <==> r.id in z.records && r.content == z.records[r.id]
  {
    forall r ensures r in page <==> r.id in z.records && r.content == z.records[r.id] {
      if r in page { assert Holds(z, r); }
      if r.id in z.records && r.content == z.records[r.id] { assert r == Record(r.id, z.records[r.id]); }
    }
    forall ip | ip in Contents(z) ensures ip in Listed(page) {
      var id :| id in z.records && z.records[id] == ip;
      assert Record(id, ip) in page;
    }
  }

  /** The records a reconcile keeps of an exact listing. */
  lemma DoomedExact(z: Zone, page: seq<Record>, d: seq<Ip>)
    requires IsPage(z, page) && ListsAll(z, page)
    ensures forall id :: id in z.records ==> (id in Doomed(page, d) <==> z.records[id] !in d)
  {
    ListingIsExact(z, page);
    forall id | id in z.records ensures id in Doomed(page, d) <==> z.records[id] !in d {
      if z.records[id] !in d { assert Record(id, z.records[id]) in page; }
    }
  }

  lemma OneMore(rs: seq<Recon>, r: Recon)
    ensures AllToGo(rs + [r]) == AllToGo(rs) + ToGo(r) && AllToPut(rs + [r]) == AllToPut(rs) + ToPut(r)
  {
    var all := rs + [r];
    forall id | id in AllToGo(rs) + ToGo(r) ensures id in AllToGo(all) {
      if id in ToGo(r) { assert id in ToGo(all[|rs|]); } else {
        var t :| 0 <= t < |rs| && id in ToGo(rs[t]);
        assert id in ToGo(all[t]);
      }
    }
    forall ip | ip in AllToPut(rs) + ToPut(r) ensures ip in AllToPut(all) {
      if ip in ToPut(r) { assert ip in ToPut(all[|rs|]); } else {
        var t :| 0 <= t < |rs| && ip in ToPut(rs[t]);
        assert ip in ToPut(all[t]);
      }
    }
  }

  lemma JustListed(z: Zone, page: seq<Record>, d: seq<Ip>)
    requires IsPage(z, page) && |z.records| <= PAGE_SIZE
    ensures ToPut(Adding(d, page, 0)) == set ip | ip in d && ip !in Contents(z)
    ensures forall id :: id in z.records ==> (id in ToGo(Adding(d, page, 0)) <==> z.records[id] !in d)
  {
    SmallZoneIsListed(z, page);
    ListingIsExact(z, page);
    DoomedExact(z, page, d);
    assert d[0..] == d;
  }

  /** A new leader lists while others, at `rs`, are still writing. Together they empty the hostname exactly when the
      others have nothing to add, the new leader finds all it wants, and it wants no record that the others keep. */
  lemma NewLeaderEmptiesTheHostname(z: Zone, rs: seq<Recon>, page: seq<Record>, d: seq<Ip>, plays: seq<Play>)
    requires ValidZone(z) && AllOld(z, rs) && IsPage(z, page) && |z.records| <= PAGE_SIZE
    requires PlaysOf(|rs| + 1, plays) && AllFinished(Played(z, rs + [Adding(d, page, 0)], plays).1)
    ensures Played(z, rs + [Adding(d, page, 0)], plays).0.records == map[]
            <==> && AllToPut(rs) == {} && (forall ip :: ip in d ==> ip in Contents(z))
                 && (forall id :: id in z.records && z.records[id] in d ==> id in AllToGo(rs))
  {
    var all := rs + [Adding(d, page, 0)];
    forall x | x in page ensures x.id < z.nextId { assert Holds(z, x); }
    forall t | 0 <= t < |all| ensures Old(z, all[t]) { if t < |rs| { assert Old(z, rs[t]); } }
    LeadersEmptyTheHostname(z, all, plays);
    OneMore(rs, Adding(d, page, 0));
    JustListed(z, page, d);
    var lacking := set ip | ip in d && ip !in Contents(z);
    assert AllToPut(all) == AllToPut(rs) + lacking;
    if lacking == {} {
      forall ip | ip in d ensures ip in Contents(z) { assert ip !in lacking; }
    }
  }

  /** A second leader lists when the first, `n` turns into its loops, has added some of what it wants: the hostname
      ends up empty exactly when what the first still had to look at was served all along, and the second wants only
      what was served before the first began and what the first does not want. */
  lemma SecondListsLater(z0: Zone, page: seq<Record>, d: seq<Ip>, env: nat -> Outcome, n: nat,
                         page': seq<Record>, d': seq<Ip>, plays: seq<Play>)
    requires ValidZone(z0) && IsPage(z0, page) && |z0.records| <= PAGE_SIZE
    requires n <= |d| && forall k :: 0 <= k < n ==> env(k) == Replied
    requires var z := After(z0, Adding(d, page, 0), env, n).0;
             && IsPage(z, page') && |z.records| <= PAGE_SIZE && PlaysOf(2, plays)
             && AllFinished(Played(z, [Adding(d, page, n), Adding(d', page', 0)], plays).1)
    ensures var z := After(z0, Adding(d, page, 0), env, n).0;
            Played(z, [Adding(d, page, n), Adding(d', page', 0)], plays).0.records == map[]
            <==> && (forall ip :: ip in d' ==> ip in Contents(z0) && ip !in d)
                 && (forall ip :: ip in d[n..] ==> ip in Contents(z0))
  {
    var z, rs := After(z0, Adding(d, page, 0), env, n).0, [Adding(d, page, n)];
    CleanProgress(z0, page, d, env, n);
    SoloRun(z0, page, d, env, n);
    StillOld(z0, page, z, d, n);
    assert rs + [Adding(d', page', 0)] == [Adding(d, page, n), Adding(d', page', 0)];
    NewLeaderEmptiesTheHostname(z, rs, page', d', plays);
    FirstLeaderLeft(z0, page, d, n);
    DisjointWants(z0, page, d, z, n, d');
  }

  lemma StillOld(z0: Zone, page: seq<Record>, z: Zone, d: seq<Ip>, n: nat)
    requires ValidZone(z0) && ValidZone(z) && IsPage(z0, page) && Kept(z0, z)
    ensures AllOld(z, [Adding(d, page, n)])
  {
    forall x | x in page ensures x.id < z.nextId { assert Holds(z0, x); }
  }

  lemma FirstLeaderLeft(z0: Zone, page: seq<Record>, d: seq<Ip>, n: nat)
    requires IsPage(z0, page) && |z0.records| <= PAGE_SIZE && n <= |d|
    ensures AllToPut([Adding(d, page, n)]) == {} <==> forall ip :: ip in d[n..] ==> ip in Contents(z0)
    ensures forall id :: id in AllToGo([Adding(d, page, n)]) <==> id in z0.records && z0.records[id] !in d
  {
    var r := Adding(d, page, n);
    OneMore([], r);
    assert [] + [r] == [r] && AllToPut([]) == {} && AllToGo([]) == {};
    assert AllToPut([r]) == ToPut(r) && AllToGo([r]) == ToGo(r);
    LeftOfExact(z0, page, d, n);
  }

  lemma LeftOfExact(z0: Zone, page: seq<Record>, d: seq<Ip>, n: nat)
    requires IsPage(z0, page) && |z0.records| <= PAGE_SIZE && n <= |d|
    ensures Added(page, d[n..]) == {} <==> forall ip :: ip in d[n..] ==> ip in Contents(z0)
    ensures forall id :: id in Doomed(page, d) <==> id in z0.records && z0.records[id] !in d
  {
    SmallZoneIsListed(z0, page);
    ListingIsExact(z0, page);
    if Added(page, d[n..]) == {} {
      forall ip | ip in d[n..] ensures ip in Contents(z0) { assert ip !in Added(page, d[n..]); }
    }
    forall id | id in z0.records && z0.records[id] !in d ensures id in Doomed(page, d) {
      assert Record(id, z0.records[id]) in page;
    }
  }

  lemma DisjointWants(z0: Zone, page: seq<Record>, d: seq<Ip>, z: Zone, n: nat, d': seq<Ip>)
    requires n <= |d| && AddZone(z0, page, d, n, z)
    ensures (&& (forall ip :: ip in d' ==> ip in Contents(z))
             && (forall id :: id in z.records && z.records[id] in d' ==> id in z0.records && z0.records[id] !in d))
            <==> forall ip :: ip in d' ==> ip in Contents(z0) && ip !in d
  {
    if (forall ip :: ip in d' ==> ip in Contents(z))
       && (forall id :: id in z.records && z.records[id] in d' ==> id in z0.records && z0.records[id] !in d)
    {
      forall ip | ip in d' ensures ip in Contents(z0) && ip !in d {
        var id :| id in z.records && z.records[id] == ip;
        assert z0.records[id] == ip;
      }
    }
    if forall ip :: ip in d' ==> ip in Contents(z0) && ip !in d {
      forall ip | ip in d' ensures ip in Contents(z) {
        var id :| id in z0.records && z0.records[id] == ip;
        assert z.records[id] == ip;
      }
    }
  }

  // --- Leaders on one listing ---------------------------------------------------

  /** The leaders at the head of their loops, all on one listing. */
  function Began(page: seq<Record>, ds: seq<seq<Ip>>): seq<Recon> {
    seq(|ds|, t requires 0 <= t < |ds| => Adding(ds[t], page, 0))
  }

  ghost predicate Wanted(ds: seq<seq<Ip>>, ip: Ip) { exists d :: d in ds && ip in d }

  ghost predicate WantedByAll(ds: seq<seq<Ip>>, ip: Ip) { forall d :: d in ds ==> ip in d }

  lemma OneListing(z: Zone, page: seq<Record>, ds: seq<seq<Ip>>)
    requires ValidZone(z) && IsPage(z, page) && |z.records| <= PAGE_SIZE
    ensures AllOld(z, Began(page, ds))
    ensures forall ip :: ip in AllToPut(Began(page, ds)) <==> ip !in Contents(z) && Wanted(ds, ip)
    ensures forall id :: id in z.records ==>
              (id in AllToGo(Began(page, ds)) <==> !WantedByAll(ds, z.records[id]))
  {
    var rs := Began(page, ds);
    forall x | x in page ensures x.id < z.nextId { assert Holds(z, x); }
    forall d | d in ds
      ensures ToPut(Adding(d, page, 0)) == set ip | ip in d && ip !in Contents(z)
      ensures forall id :: id in z.records ==> (id in ToGo(Adding(d, page, 0)) <==> z.records[id] !in d)
    {
      JustListed(z, page, d);
    }
    forall ip | ip !in Contents(z) && Wanted(ds, ip) ensures ip in AllToPut(rs) {
      var d :| d in ds && ip in d;
      var t :| 0 <= t < |ds| && ds[t] == d;
      assert ip in ToPut(rs[t]);
    }
    forall id | id in z.records && !WantedByAll(ds, z.records[id]) ensures id in AllToGo(rs) {
      var d :| d in ds && z.records[id] !in d;
      var t :| 0 <= t < |ds| && ds[t] == d;
      assert id in ToGo(rs[t]);
    }
  }

  /** Leaders that have listed the same records, in any interleaving, all of them finished: an address is served in
      the end exactly if one of them wants it and either all do or it was not served before. */
  lemma LeadersOnOneListing(z: Zone, page: seq<Record>, ds: seq<seq<Ip>>, plays: seq<Play>)
    requires ValidZone(z) && IsPage(z, page) && |z.records| <= PAGE_SIZE && ds != []
    requires PlaysOf(|ds|, plays) && AllFinished(Played(z, Began(page, ds), plays).1)
    ensures forall ip :: ip in Contents(Played(z, Began(page, ds), plays).0)
                         <==> Wanted(ds, ip) && (ip !in Contents(z) || WantedByAll(ds, ip))
  {
    var rs := Began(page, ds);
    var left := Without(z, AllToGo(rs));
    OneListing(z, page, ds);
    LeadersExact(z, rs, plays);
    GrownContents(left, Played(z, rs, plays).0, AllToPut(rs));
    forall ip ensures ip in Contents(left) <==> ip in Contents(z) && WantedByAll(ds, ip) {
      if ip in Contents(z) && WantedByAll(ds, ip) {
        var id :| id in z.records && z.records[id] == ip;
        assert id in left.records && left.records[id] == ip;
      }
      if ip in Contents(left) {
        var id :| id in left.records && left.records[id] == ip;
        assert id in z.records && z.records[id] == ip;
      }
    }
    forall ip | WantedByAll(ds, ip) ensures Wanted(ds, ip) { assert ds[0] in ds; }
  }
}
