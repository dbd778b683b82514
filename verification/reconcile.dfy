/** `reconcile` after the zone was found: list once, add what is missing, delete what is not
    wanted, one call at a time, stopping at the first error (apps/dokploy/lb-controller.ts:157-184).
    `Step` is one turn of one of the two loops; the lemmas are about one reconcile running alone. */
module Reconcile {
  import opened Ordering
  import opened Dns

  datatype Recon =
    | Listing(desired: seq<Ip>)
    | Adding(desired: seq<Ip>, existing: seq<Record>, i: nat)
    | Deleting(desired: seq<Ip>, existing: seq<Record>, j: nat)
    | Finished
    | Failed

  function Listed(existing: seq<Record>): set<Ip> { set r | r in existing :: r.content }

  predicate Writing(r: Recon) { r.Adding? || r.Deleting? }

  /** The write that the current loop turn issues, or None when it continues or the loop is over. */
  function NextWrite(r: Recon): Option<Write> {
    match r
    case Adding(desired, existing, i) =>
      if i < |desired| && desired[i] !in Listed(existing) then Some(Add(desired[i])) else None
    case Deleting(desired, existing, j) =>
      if j < |existing| && existing[j].content !in desired then Some(Remove(existing[j].id)) else None
    case _ => None
  }

  /** Where control goes when the current turn raised no error. */
  function Onward(r: Recon): Recon {
    match r
    case Adding(desired, existing, i) =>
      if i < |desired| then Adding(desired, existing, i + 1) else Deleting(desired, existing, 0)
    case Deleting(desired, existing, j) => if j < |existing| then Deleting(desired, existing, j + 1) else Finished
    case _ => r
  }

  function Step(z: Zone, r: Recon, o: Outcome): (Zone, Recon) {
    match NextWrite(r)
    case None => (z, Onward(r))
    case Some(w) => (Settle(z, w, o), if o.Replied? then Onward(r) else Failed)
  }

  /** Zone and control point after `n` turns, where `env(k)` is how the write of turn `k` ends. */
  function After(z: Zone, r: Recon, env: nat -> Outcome, n: nat): (Zone, Recon) {
    if n == 0 then (z, r)
    else var (z', r') := After(z, r, env, n - 1); Step(z', r', env(n - 1))
  }

  /** Turns after which every reconcile is over. */
  function Budget(desired: seq<Ip>, page: seq<Record>): nat { |desired| + |page| + 2 }

  ghost predicate Kept(z0: Zone, z: Zone) {
    forall id :: id in z0.records ==> id in z.records && z.records[id] == z0.records[id]
  }

  ghost predicate Covers(d: seq<Ip>, z: Zone) { forall ip :: ip in d ==> ip in Contents(z) }

  // --- What any reconcile keeps, whoever else writes ----------------------------

  /** The records a reconcile has listed are still what they were, unless they are gone. */
  ghost predicate Known(z: Zone, existing: seq<Record>) {
    forall r :: r in existing ==> r.id < z.nextId && (r.id in z.records ==> z.records[r.id] == r.content)
  }

  ghost predicate ReconOk(z: Zone, r: Recon) {
    match r
    case Adding(d, existing, i) => i <= |d| && Known(z, existing)
    case Deleting(_, existing, j) => j <= |existing| && Known(z, existing)
    case _ => true
  }

  /** Records are created with new ids and never edited. */
  ghost predicate ZoneEvolves(z: Zone, z': Zone) {
    && z.nextId <= z'.nextId
    && forall id :: id in z'.records && id < z.nextId ==> id in z.records && z'.records[id] == z.records[id]
  }

  lemma ReconFrame(z: Zone, z': Zone, r: Recon)
    requires ReconOk(z, r) && ZoneEvolves(z, z')
    ensures ReconOk(z', r)
  {
  }

  lemma ApplyEvolves(z: Zone, w: Write)
    requires ValidZone(z) && (w.Remove? ==> w.id < z.nextId)
    ensures ValidZone(Apply(z, w)) && ZoneEvolves(z, Apply(z, w))
  {
  }

  lemma TurnEvolves(z: Zone, r: Recon, o: Outcome)
    requires ValidZone(z) && ReconOk(z, r)
    ensures var (z', r') := Step(z, r, o); ValidZone(z') && ZoneEvolves(z, z') && ReconOk(z', r')
  {
    if NextWrite(r).Some? {
      var w := NextWrite(r).value;
      if w.Remove? { assert r.existing[r.j] in r.existing; }
      ApplyEvolves(z, w);
    }
  }

  lemma ListKnown(z: Zone, page: seq<Record>)
    requires ValidZone(z) && IsPage(z, page)
    ensures Known(z, page)
  {
    forall r | r in page ensures r.id < z.nextId && z.records[r.id] == r.content { assert Holds(z, r); }
  }

  /** The write of a turn adds an address of `D` or removes a record of another. */
  lemma WriteAgrees(z: Zone, r: Recon)
    requires ValidZone(z) && ReconOk(z, r) && NextWrite(r).Some?
    ensures Agrees(z, NextWrite(r).value, SetOf(r.desired))
  {
    var w := NextWrite(r).value;
    if w.Remove? { assert r.existing[r.j] in r.existing; }
  }

  lemma TurnApproaches(z: Zone, r: Recon, o: Outcome, D: set<Ip>)
    requires ValidZone(z) && LateAgrees(z, D) && ReconOk(z, r) && Writing(r) && SetOf(r.desired) == D
    ensures Approaches(z, Step(z, r, o).0, D) && LateAgrees(Step(z, r, o).0, D)
  {
    if NextWrite(r).Some? {
      WriteAgrees(z, r);
      ApplyApproaches(z, NextWrite(r).value, D);
    }
  }

  // --- What a reconcile may change ----------------------------------------------

  /** Ids that the second loop deletes. */
  function Doomed(page: seq<Record>, d: seq<Ip>): set<nat> { set r | r in page && r.content !in d :: r.id }

  /** Addresses that the first loop adds. */
  function Added(page: seq<Record>, d: seq<Ip>): set<Ip> { set ip | ip in d && ip !in Listed(page) }

  /** From `z` to `z'` no record outside `gone` is deleted and no address outside `put` is added, nor is
      such a write on the way. */
  ghost predicate Within(z: Zone, z': Zone, gone: set<nat>, put: set<Ip>) {
    && ValidZone(z') && z.nextId <= z'.nextId
    && (forall id :: id in z.records && id !in gone ==> id in z'.records)
    && (forall id :: id in z'.records && id < z.nextId ==> id in z.records && z'.records[id] == z.records[id])
    && (forall id :: id in z'.records && id >= z.nextId ==> z'.records[id] in put)
    && (forall w :: w in z'.late ==> w in z.late || (if w.Add? then w.ip in put else w.id in gone))
  }

  lemma SettleWithin(z0: Zone, z: Zone, gone: set<nat>, put: set<Ip>, w: Write, o: Outcome)
    requires Within(z0, z, gone, put) && if w.Add? then w.ip in put else w.id in gone && w.id < z.nextId
    ensures Within(z0, Settle(z, w, o), gone, put)
  {
    var z' := Settle(z, w, o);
    assert forall x :: x in z'.late ==> x in z.late || x == w;
  }

  lemma TurnWithin(z0: Zone, z: Zone, r: Recon, o: Outcome, page: seq<Record>, d: seq<Ip>)
    requires Within(z0, z, Doomed(page, d), Added(page, d)) && forall x :: x in page ==> x.id < z.nextId
    requires Writing(r) ==> r.desired == d && r.existing == page
    ensures Within(z0, Step(z, r, o).0, Doomed(page, d), Added(page, d))
  {
    if NextWrite(r).Some? {
      if r.Deleting? { assert page[r.j] in page; }
      SettleWithin(z0, z, Doomed(page, d), Added(page, d), NextWrite(r).value, o);
    }
  }

  /** At every moment and whatever its calls do, a reconcile running alone has deleted only listed records that it does
      not want and added only addresses that it wants and did not find listed. */
  lemma {:induction false} AfterWithin(z0: Zone, page: seq<Record>, d: seq<Ip>, env: nat -> Outcome, n: nat)
    requires ValidZone(z0) && IsPage(z0, page)
    ensures Within(z0, After(z0, Adding(d, page, 0), env, n).0, Doomed(page, d), Added(page, d))
  {
    ListKnown(z0, page);
    if n == 0 {
    } else {
      AfterWithin(z0, page, d, env, n - 1);
      SoloRun(z0, page, d, env, n - 1);
      var (z, r) := After(z0, Adding(d, page, 0), env, n - 1);
      TurnWithin(z0, z, r, env(n - 1), page, d);
    }
  }

  // --- What holds at each control point -----------------------------------------

  ghost predicate AddZone(z0: Zone, page: seq<Record>, d: seq<Ip>, i: nat, z: Zone)
    requires i <= |d|
  {
    && Kept(z0, z)
    && (forall id :: id in z.records && id !in z0.records ==> z.records[id] in d[..i] && z.records[id] !in Listed(page))
    && (forall k :: 0 <= k < i ==> d[k] in Contents(z))
  }

  ghost predicate DelZone(z0: Zone, page: seq<Record>, d: seq<Ip>, j: nat, z: Zone)
    requires j <= |page|
  {
    && Covers(d, z)
    && (forall id :: id in z.records ==> (id in z0.records && z.records[id] == z0.records[id]) || z.records[id] in d)
    && (forall k :: 0 <= k < j && page[k].content !in d ==> page[k].id !in z.records)
    && (forall k :: j <= k < |page| ==> Holds(z, page[k]))
    && (forall id :: id in z0.records && id !in Ids(page) ==> id in z.records && z.records[id] == z0.records[id])
  }

  ghost predicate Solo(z0: Zone, page: seq<Record>, d: seq<Ip>, z: Zone, r: Recon) {
    && ValidZone(z)
    && match r
       case Listing(_) => false
       case Adding(d', existing, i) => d' == d && existing == page && i <= |d| && AddZone(z0, page, d, i, z)
       case Deleting(d', existing, j) => d' == d && existing == page && j <= |page| && DelZone(z0, page, d, j, z)
       case Finished => DelZone(z0, page, d, |page|, z)
       case Failed => Kept(z0, z) || Covers(d, z)
  }

  lemma AddTurn(z0: Zone, page: seq<Record>, d: seq<Ip>, z: Zone, i: nat, o: Outcome)
    requires ValidZone(z0) && IsPage(z0, page) && Solo(z0, page, d, z, Adding(d, page, i)) && i < |d|
    ensures var (z', r') := Step(z, Adding(d, page, i), o); Solo(z0, page, d, z', r')
  {
    if d[i] in Listed(page) {
      var r :| r in page && r.content == d[i];
      assert Holds(z0, r) && r.id in z.records;
    } else {
      var z' := Apply(z, Add(d[i]));
      assert z'.records[z.nextId] == d[i];
      assert Kept(z0, z');
      forall k | 0 <= k < i + 1 ensures d[k] in Contents(z') {
        if k < i {
          assert d[k] in Contents(z);
          var id :| id in z.records && z.records[id] == d[k];
          assert id in z'.records && z'.records[id] == d[k];
        }
      }
    }
  }

  lemma TurnToDeletes(z0: Zone, page: seq<Record>, d: seq<Ip>, z: Zone, o: Outcome)
    requires ValidZone(z0) && IsPage(z0, page) && Solo(z0, page, d, z, Adding(d, page, |d|))
    ensures var (z', r') := Step(z, Adding(d, page, |d|), o); Solo(z0, page, d, z', r')
  {
    forall k | 0 <= k < |page| ensures Holds(z, page[k]) { assert Holds(z0, page[k]); }
  }

  lemma RemoveKeepsCover(z: Zone, d: seq<Ip>, id: nat, o: Outcome)
    requires Covers(d, z) && id in z.records && z.records[id] !in d
    ensures Covers(d, Settle(z, Remove(id), o))
  {
    forall ip | ip in d ensures ip in Contents(Settle(z, Remove(id), o)) {
      var k :| k in z.records && z.records[k] == ip;
      assert k in Settle(z, Remove(id), o).records;
    }
  }

  /** The deletion of `page[j]` leaves the later listed records. */
  lemma RestListed(page: seq<Record>, z: Zone, j: nat)
    requires DistinctIds(page) && j < |page| && forall k :: j <= k < |page| ==> Holds(z, page[k])
    ensures forall k :: j + 1 <= k < |page| ==> Holds(Apply(z, Remove(page[j].id)), page[k])
  {
    forall k | j + 1 <= k < |page| ensures Holds(Apply(z, Remove(page[j].id)), page[k]) { assert Holds(z, page[k]); }
  }

  /** It leaves the records that are not listed. */
  lemma UnlistedStay(z0: Zone, page: seq<Record>, z: Zone, j: nat)
    requires j < |page|
    requires forall id :: id in z0.records && id !in Ids(page) ==> id in z.records && z.records[id] == z0.records[id]
    ensures var z' := Apply(z, Remove(page[j].id));
            forall id :: id in z0.records && id !in Ids(page) ==> id in z'.records && z'.records[id] == z0.records[id]
  {
    assert page[j].id in Ids(page);
  }

  lemma DeleteZone(z0: Zone, page: seq<Record>, d: seq<Ip>, z: Zone, j: nat)
    requires IsPage(z0, page) && j < |page| && DelZone(z0, page, d, j, z)
    ensures page[j].content !in d ==> DelZone(z0, page, d, j + 1, Apply(z, Remove(page[j].id)))
  {
    if page[j].content !in d {
      assert Holds(z, page[j]);
      RemoveKeepsCover(z, d, page[j].id, Replied);
      RestListed(page, z, j);
      UnlistedStay(z0, page, z, j);
    }
  }

  lemma KeepZone(z0: Zone, page: seq<Record>, d: seq<Ip>, z: Zone, j: nat)
    requires j < |page| && page[j].content in d && DelZone(z0, page, d, j, z)
    ensures DelZone(z0, page, d, j + 1, z)
  {
  }

  lemma DeleteTurn(z0: Zone, page: seq<Record>, d: seq<Ip>, z: Zone, j: nat, o: Outcome)
    requires ValidZone(z0) && IsPage(z0, page) && Solo(z0, page, d, z, Deleting(d, page, j)) && j < |page|
    ensures var (z', r') := Step(z, Deleting(d, page, j), o); Solo(z0, page, d, z', r')
  {
    if page[j].content !in d {
      assert Holds(z, page[j]);
      RemoveKeepsCover(z, d, page[j].id, o);
      if o.Replied? { DeleteZone(z0, page, d, z, j); }
    } else {
      KeepZone(z0, page, d, z, j);
    }
  }

  lemma SoloStep(z0: Zone, page: seq<Record>, d: seq<Ip>, z: Zone, r: Recon, o: Outcome)
    requires ValidZone(z0) && IsPage(z0, page) && Solo(z0, page, d, z, r)
    ensures var (z', r') := Step(z, r, o); Solo(z0, page, d, z', r')
  {
    match r
    case Adding(_, _, i) => if i < |d| { AddTurn(z0, page, d, z, i, o); } else { TurnToDeletes(z0, page, d, z, o); }
    case Deleting(_, _, j) => if j < |page| { DeleteTurn(z0, page, d, z, j, o); }
    case _ =>
  }

  lemma {:induction false} SoloRun(z0: Zone, page: seq<Record>, d: seq<Ip>, env: nat -> Outcome, n: nat)
    requires ValidZone(z0) && IsPage(z0, page)
    ensures var (z, r) := After(z0, Adding(d, page, 0), env, n); Solo(z0, page, d, z, r)
  {
    if n == 0 {
    } else {
      SoloRun(z0, page, d, env, n - 1);
      var (z, r) := After(z0, Adding(d, page, 0), env, n - 1);
      SoloStep(z0, page, d, z, r, env(n - 1));
    }
  }

  // --- The order of additions ---------------------------------------------------

  /** Records that are new since `z0` were added by increasing address. */
  ghost predicate AddedInOrder(z0: Zone, z: Zone) {
    forall a, b :: z0.nextId <= a < b && a in z.records && b in z.records ==> Less(z.records[a], z.records[b])
  }

  lemma TurnAddsInOrder(z0: Zone, page: seq<Record>, d: seq<Ip>, z: Zone, r: Recon, o: Outcome)
    requires ValidZone(z0) && IsPage(z0, page) && Solo(z0, page, d, z, r) && Ascending(d, Self) && AddedInOrder(z0, z)
    ensures AddedInOrder(z0, Step(z, r, o).0)
  {
    if NextWrite(r).Some? && r.Adding? {
      forall a | a in z.records && a >= z0.nextId ensures Less(z.records[a], d[r.i]) {
        var k :| 0 <= k < r.i && d[..r.i][k] == z.records[a];
        assert Less(Self(d[k]), Self(d[r.i]));
      }
    }
  }

  /** A reconcile running alone adds in the order of its desired list, so by increasing address. */
  lemma {:induction false} AddsInOrder(z0: Zone, page: seq<Record>, d: seq<Ip>, env: nat -> Outcome, n: nat)
    requires ValidZone(z0) && IsPage(z0, page) && Ascending(d, Self)
    ensures AddedInOrder(z0, After(z0, Adding(d, page, 0), env, n).0)
  {
    if n == 0 {
    } else {
      AddsInOrder(z0, page, d, env, n - 1);
      SoloRun(z0, page, d, env, n - 1);
      var (z, r) := After(z0, Adding(d, page, 0), env, n - 1);
      TurnAddsInOrder(z0, page, d, z, r, env(n - 1));
    }
  }

  // --- Make before break --------------------------------------------------------

  /** What is still on the way adds desired and removes other addresses, and removes nothing before all desired
      addresses are served. With nothing on the way this holds. */
  ghost predicate LateSafe(z: Zone, d: seq<Ip>) {
    LateAgrees(z, SetOf(d)) && forall w :: w in z.late && w.Remove? ==> Covers(d, z)
  }

  /** The writes `ws` were on the way and take effect one after the other. */
  ghost predicate Landing(z: Zone, ws: seq<Write>)
    decreases |ws|
  {
    ws != [] ==> ws[0] in z.late && Landing(Deliver(z, ws[0]), ws[1..])
  }

  function Landed(z: Zone, ws: seq<Write>): Zone
    decreases |ws|
  {
    if ws == [] then z else Landed(Deliver(z, ws[0]), ws[1..])
  }

  /** No address of `d` that `z0` serves is gone, and the hostname is not empty if it was not and something is
      desired. */
  ghost predicate Unbroken(z0: Zone, d: seq<Ip>, z: Zone) {
    && (forall ip :: ip in d && ip in Contents(z0) ==> ip in Contents(z))
    && (z0.records != map[] && d != [] ==> z.records != map[])
  }

  lemma CoverIsUnbroken(z0: Zone, d: seq<Ip>, z: Zone)
    requires Covers(d, z)
    ensures Unbroken(z0, d, z)
  {
    if d != [] { assert d[0] in Contents(z); }
  }

  lemma KeptIsUnbroken(z0: Zone, d: seq<Ip>, z: Zone)
    requires Kept(z0, z)
    ensures Unbroken(z0, d, z)
  {
    forall ip | ip in Contents(z0) ensures ip in Contents(z) {
      var id :| id in z0.records && z0.records[id] == ip;
      assert id in z.records;
    }
    if z0.records != map[] {
      var id :| id in z0.records;
      assert id in z.records;
    }
  }

  lemma CoverStays(z: Zone, z': Zone, d: seq<Ip>)
    requires Covers(d, z) && Approaches(z, z', SetOf(d))
    ensures Covers(d, z')
  {
    ServedStays(z, z', SetOf(d));
    assert forall ip :: ip in d ==> ip in SetOf(d);
  }

  lemma DeliverSafe(z0: Zone, z: Zone, d: seq<Ip>, w: Write)
    requires ValidZone(z) && LateSafe(z, d) && Unbroken(z0, d, z) && w in z.late
    ensures var z' := Deliver(z, w); ValidZone(z') && LateSafe(z', d) && Unbroken(z0, d, z')
  {
    var z' := Deliver(z, w);
    DeliverApproaches(z, w, SetOf(d));
    if Covers(d, z) {
      CoverStays(z, z', d);
      CoverIsUnbroken(z0, d, z');
    } else {
      assert w.Add?;
      KeptIsUnbroken(z, d, z');
    }
  }

  lemma {:induction false} LandedUnbroken(z0: Zone, z: Zone, d: seq<Ip>, ws: seq<Write>)
    requires ValidZone(z) && LateSafe(z, d) && Unbroken(z0, d, z) && Landing(z, ws)
    ensures Unbroken(z0, d, Landed(z, ws))
    decreases |ws|
  {
    if ws == [] {
    } else {
      DeliverSafe(z0, z, d, ws[0]);
      LandedUnbroken(z0, Deliver(z, ws[0]), d, ws[1..]);
    }
  }

  /** The write of a turn adds a desired address, or removes a record of another one once all desired ones are
      served. */
  lemma TurnAgrees(z0: Zone, page: seq<Record>, d: seq<Ip>, z: Zone, r: Recon)
    requires ValidZone(z0) && IsPage(z0, page) && Solo(z0, page, d, z, r) && NextWrite(r).Some?
    ensures Agrees(z, NextWrite(r).value, SetOf(d))
    ensures NextWrite(r).value.Remove? ==> Covers(d, z)
  {
    if r.Deleting? { assert Holds(z, page[r.j]); }
  }

  lemma TurnSafe(z0: Zone, page: seq<Record>, d: seq<Ip>, z: Zone, r: Recon, o: Outcome)
    requires ValidZone(z0) && IsPage(z0, page) && Solo(z0, page, d, z, r) && LateSafe(z, d)
    ensures LateSafe(Step(z, r, o).0, d)
  {
    if NextWrite(r).Some? {
      var w := NextWrite(r).value;
      TurnAgrees(z0, page, d, z, r);
      SettleAgrees(z, w, o, SetOf(d));
      if Covers(d, z) { SettleKeepsCover(z, d, w, o); }
    }
  }

  lemma SettleKeepsCover(z: Zone, d: seq<Ip>, w: Write, o: Outcome)
    requires ValidZone(z) && Covers(d, z) && Agrees(z, w, SetOf(d))
    ensures Covers(d, Settle(z, w, o))
  {
    forall ip | ip in d ensures ip in Contents(Settle(z, w, o)) {
      var id :| id in z.records && z.records[id] == ip;
      assert ip in SetOf(d);
      assert id in Settle(z, w, o).records && Settle(z, w, o).records[id] == ip;
    }
  }

  lemma {:induction false} RunSafe(z0: Zone, page: seq<Record>, d: seq<Ip>, env: nat -> Outcome, n: nat)
    requires ValidZone(z0) && IsPage(z0, page) && LateSafe(z0, d)
    ensures LateSafe(After(z0, Adding(d, page, 0), env, n).0, d)
  {
    if n == 0 {
    } else {
      RunSafe(z0, page, d, env, n - 1);
      SoloRun(z0, page, d, env, n - 1);
      var (z, r) := After(z0, Adding(d, page, 0), env, n - 1);
      TurnSafe(z0, page, d, z, r, env(n - 1));
    }
  }

  /** At every moment of a reconcile running alone, and wherever it stops: while adding, every record that
      existed is still there; while deleting, every desired address is served. So an address that was
      served and is desired never disappears, and the hostname is never emptied; nor do writes that were
      on the way, of this run or of earlier ones for the same addresses, change that when they take effect. */
  lemma MakeBeforeBreak(z0: Zone, page: seq<Record>, d: seq<Ip>, env: nat -> Outcome, n: nat)
    requires ValidZone(z0) && IsPage(z0, page)
    ensures var (z, r) := After(z0, Adding(d, page, 0), env, n);
            && (r.Adding? ==> Kept(z0, z))
            && (r.Deleting? || r.Finished? ==> Covers(d, z))
            && (Kept(z0, z) || Covers(d, z))
            && Unbroken(z0, d, z)
            && (LateSafe(z0, d) ==> LateSafe(z, d) && forall ws :: Landing(z, ws) ==> Unbroken(z0, d, Landed(z, ws)))
    ensures z0.late == multiset{} ==> LateSafe(z0, d)
  {
    SoloRun(z0, page, d, env, n);
    var (z, r) := After(z0, Adding(d, page, 0), env, n);
    if Kept(z0, z) { KeptIsUnbroken(z0, d, z); } else { CoverIsUnbroken(z0, d, z); }
    if LateSafe(z0, d) {
      RunSafe(z0, page, d, env, n);
      forall ws | Landing(z, ws) ensures Unbroken(z0, d, Landed(z, ws)) { LandedUnbroken(z0, z, d, ws); }
    }
  }

  // --- Termination and the exact result -----------------------------------------

  lemma {:induction false} Progress(z0: Zone, page: seq<Record>, d: seq<Ip>, env: nat -> Outcome, n: nat)
    requires n <= Budget(d, page)
    ensures var r := After(z0, Adding(d, page, 0), env, n).1;
            && !r.Listing?
            && (r.Adding? ==> r == Adding(d, page, n) && n <= |d|)
            && (r.Deleting? ==> n > |d| && r == Deleting(d, page, n - |d| - 1) && n - |d| - 1 <= |page|)
  {
    if n == 0 {
    } else {
      Progress(z0, page, d, env, n - 1);
    }
  }

  /** However the calls end, the reconcile is over after at most one turn per desired address and listed record,
      plus two. */
  lemma Terminates(z0: Zone, page: seq<Record>, d: seq<Ip>, env: nat -> Outcome)
    ensures !Writing(After(z0, Adding(d, page, 0), env, Budget(d, page)).1)
  {
    Progress(z0, page, d, env, Budget(d, page));
  }

  lemma {:induction false} NoErrorNoFailure(z0: Zone, page: seq<Record>, d: seq<Ip>, env: nat -> Outcome, n: nat)
    requires forall k :: 0 <= k < n ==> env(k) == Replied
    ensures !After(z0, Adding(d, page, 0), env, n).1.Failed?
  {
    if n == 0 {
    } else {
      NoErrorNoFailure(z0, page, d, env, n - 1);
    }
  }

  lemma {:induction false} CleanProgress(z0: Zone, page: seq<Record>, d: seq<Ip>, env: nat -> Outcome, n: nat)
    requires n <= Budget(d, page) && forall k :: 0 <= k < n ==> env(k) == Replied
    ensures After(z0, Adding(d, page, 0), env, n).1
            == if n <= |d| then Adding(d, page, n)
               else if n < Budget(d, page) then Deleting(d, page, n - |d| - 1)
               else Finished
  {
    if n == 0 {
    } else {
      CleanProgress(z0, page, d, env, n - 1);
    }
  }

  /** A run without errors ends with exactly the desired addresses served if and only if every record
      that the list call did not return serves a desired address. */
  lemma CleanRunExact(z0: Zone, page: seq<Record>, d: seq<Ip>, env: nat -> Outcome)
    requires ValidZone(z0) && IsPage(z0, page)
    requires forall k :: 0 <= k < Budget(d, page) ==> env(k) == Replied
    ensures var (z, r) := After(z0, Adding(d, page, 0), env, Budget(d, page));
            && r == Finished
            && (Contents(z) == (set ip | ip in d)
                <==> forall id :: id in z0.records && id !in Ids(page) ==> z0.records[id] in d)
  {
    Terminates(z0, page, d, env);
    Progress(z0, page, d, env, Budget(d, page));
    NoErrorNoFailure(z0, page, d, env, Budget(d, page));
    SoloRun(z0, page, d, env, Budget(d, page));
    var (z, r) := After(z0, Adding(d, page, 0), env, Budget(d, page));
    FinishedExact(z0, page, d, z);
  }

  lemma FinishedExact(z0: Zone, page: seq<Record>, d: seq<Ip>, z: Zone)
    requires IsPage(z0, page) && DelZone(z0, page, d, |page|, z)
    ensures Contents(z) == (set ip | ip in d)
            <==> forall id :: id in z0.records && id !in Ids(page) ==> z0.records[id] in d
  {
    var wanted := set ip | ip in d;
    if Contents(z) == wanted {
      forall id | id in z0.records && id !in Ids(page) ensures z0.records[id] in d {
        assert z.records[id] in Contents(z);
      }
    }
    if forall id :: id in z0.records && id !in Ids(page) ==> z0.records[id] in d {
      forall ip | ip in Contents(z) ensures ip in wanted {
        var id :| id in z.records && z.records[id] == ip;
        if id in Ids(page) {
          var r :| r in page && r.id == id;
          assert Holds(z0, r);
          var k :| 0 <= k < |page| && page[k] == r;
          assert page[k].id == id;
        }
      }
    }
  }

  /** With at most one page of records, a run without errors leaves exactly the desired addresses;
      it leaves the hostname empty just when nothing is desired. */
  lemma CleanRunOnOnePage(z0: Zone, page: seq<Record>, d: seq<Ip>, env: nat -> Outcome)
    requires ValidZone(z0) && IsPage(z0, page) && |z0.records| <= 100
    requires forall k :: 0 <= k < Budget(d, page) ==> env(k) == Replied
    ensures var (z, r) := After(z0, Adding(d, page, 0), env, Budget(d, page));
            r == Finished && Contents(z) == (set ip | ip in d) && (z.records == map[] <==> d == [])
  {
    SmallZoneIsListed(z0, page);
    forall id | id in z0.records ensures id in Ids(page) { assert Record(id, z0.records[id]) in page; }
    CleanRunExact(z0, page, d, env);
    var (z, r) := After(z0, Adding(d, page, 0), env, Budget(d, page));
    if d != [] { assert d[0] in Contents(z); }
    if z.records != map[] {
      var id :| id in z.records;
      assert z.records[id] in Contents(z);
    }
  }

  /** Beyond one page the claim fails: with more records than a page, none of them desired, no run without
      errors reaches the desired contents, whatever page it is given. */
  lemma UnlistedRecordsSurvive(z0: Zone, page: seq<Record>, d: seq<Ip>, env: nat -> Outcome)
    requires ValidZone(z0) && IsPage(z0, page) && |z0.records| > 100
    requires forall id :: id in z0.records ==> z0.records[id] !in d
    requires forall k :: 0 <= k < Budget(d, page) ==> env(k) == Replied
    ensures Contents(After(z0, Adding(d, page, 0), env, Budget(d, page)).0) != set ip | ip in d
  {
    CleanRunExact(z0, page, d, env);
    IdsSize(page);
    assert |Ids(page)| < |z0.records.Keys|;
    forall id | id in Ids(page) ensures id in z0.records.Keys {
      var r :| r in page && r.id == id;
      assert Holds(z0, r);
    }
    assert Ids(page) != z0.records.Keys;
    var id :| id in z0.records.Keys && id !in Ids(page);
  }
}
