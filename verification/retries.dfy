/** Reconciles that crash, fail and are run again with the same desired list: which writes they make
    (apps/dokploy/lb-controller.ts:157-184). A series is a list of moves: a reconcile begins with a listing, whatever
    became of the one before; its loops take a turn; a write that was on the way takes effect. */
module Retries {
  import opened Ordering
  import opened Dns
  import opened Reconcile

  datatype Move = Begin(page: seq<Record>) | Turn(o: Outcome) | Land(w: Write)

  /** The zone and the current reconcile, with the page it listed and the zone as it then was. */
  datatype State = State(zone: Zone, recon: Recon, page: seq<Record>, base: Zone)

  function Start(z: Zone, d: seq<Ip>): State { State(z, Listing(d), [], z) }

  ghost predicate Allowed(s: State, m: Move) {
    match m
    case Begin(page) => IsPage(s.zone, page)
    case Turn(_) => Writing(s.recon)
    case Land(w) => w in s.zone.late
  }

  function Next(s: State, d: seq<Ip>, m: Move): State {
    match m
    case Begin(page) => State(s.zone, Adding(d, page, 0), page, s.zone)
    case Turn(o) => var (z, r) := Step(s.zone, s.recon, o); s.(zone := z, recon := r)
    case Land(w) => s.(zone := Deliver(s.zone, w))
  }

  function After(z: Zone, d: seq<Ip>, moves: seq<Move>): State {
    if moves == [] then Start(z, d) else Next(After(z, d, moves[..|moves| - 1]), d, moves[|moves| - 1])
  }

  /** Every move was possible when it was made. */
  ghost predicate Series(z: Zone, d: seq<Ip>, moves: seq<Move>) {
    forall k :: 0 <= k < |moves| ==> Allowed(After(z, d, moves[..k]), moves[k])
  }

  /** The write that takes effect with move `m`, if any. */
  function Effect(s: State, m: Move): Option<Write> {
    match m
    case Begin(_) => None
    case Turn(o) => if o.Replied? || o.Lost? then NextWrite(s.recon) else None
    case Land(w) => Some(w)
  }

  /** The write changes the records. */
  predicate Changes(z: Zone, w: Write) { w.Add? || w.id in z.records }

  /** The write adds an address that is already served. */
  predicate Repeats(z: Zone, w: Write) { w.Add? && w.ip in Contents(z) }

  predicate Counts(s: State, m: Move) { Effect(s, m).Some? && Changes(s.zone, Effect(s, m).value) }

  predicate RepeatsAt(s: State, m: Move) { Effect(s, m).Some? && Repeats(s.zone, Effect(s, m).value) }

  /** Number of writes in a series that changed the records. */
  function Writes(z: Zone, d: seq<Ip>, moves: seq<Move>): nat {
    if moves == [] then 0
    else
      var front := moves[..|moves| - 1];
      Writes(z, d, front) + if Counts(After(z, d, front), moves[|moves| - 1]) then 1 else 0
  }

  /** Number of those that added an address already served. */
  function Repeated(z: Zone, d: seq<Ip>, moves: seq<Move>): nat {
    if moves == [] then 0
    else
      var front := moves[..|moves| - 1];
      Repeated(z, d, front) + if RepeatsAt(After(z, d, front), moves[|moves| - 1]) then 1 else 0
  }

  // --- How far the zone is from the desired contents ----------------------------

  function Missing(z: Zone, d: seq<Ip>): set<Ip> { set ip | ip in d && ip !in Contents(z) }

  function Unwanted(z: Zone, d: seq<Ip>): set<nat> { set id | id in z.records && z.records[id] !in d }

  function Distance(z: Zone, d: seq<Ip>): nat { |Missing(z, d)| + |Unwanted(z, d)| }

  lemma AddLowersDistance(z: Zone, d: seq<Ip>, ip: Ip)
    requires ValidZone(z) && ip in d && ip !in Contents(z)
    ensures Distance(Apply(z, Add(ip)), d) + 1 == Distance(z, d)
    ensures |Missing(Apply(z, Add(ip)), d)| + 1 == |Missing(z, d)|
    ensures |Apply(z, Add(ip)).records| == |z.records| + 1
  {
    var z' := Apply(z, Add(ip));
    assert z'.records[z.nextId] == ip && z'.records.Keys == z.records.Keys + {z.nextId};
    forall x ensures x in Contents(z') <==> x == ip || x in Contents(z) {
      if x in Contents(z) {
        var id :| id in z.records && z.records[id] == x;
        assert z'.records[id] == x;
      }
    }
    assert Missing(z', d) == Missing(z, d) - {ip};
    assert Unwanted(z', d) == Unwanted(z, d);
  }

  lemma RemoveLowersDistance(z: Zone, d: seq<Ip>, id: nat)
    requires id in z.records && z.records[id] !in d
    ensures Distance(Apply(z, Remove(id)), d) + 1 == Distance(z, d)
    ensures |Missing(Apply(z, Remove(id)), d)| == |Missing(z, d)|
    ensures |Apply(z, Remove(id)).records| + 1 == |z.records|
  {
    var z' := Apply(z, Remove(id));
    forall ip | ip in d ensures ip in Contents(z') <==> ip in Contents(z) {
      if ip in Contents(z) {
        var x :| x in z.records && z.records[x] == ip;
        assert z'.records[x] == ip;
      }
    }
    assert Missing(z', d) == Missing(z, d);
    assert Unwanted(z', d) == Unwanted(z, d) - {id};
    assert z'.records.Keys == z.records.Keys - {id};
  }

  lemma AddServedKeepsDistance(z: Zone, d: seq<Ip>, ip: Ip)
    requires ValidZone(z) && ip in d && ip in Contents(z)
    ensures Distance(Apply(z, Add(ip)), d) == Distance(z, d)
  {
    var z' := Apply(z, Add(ip));
    forall x ensures x in Contents(z') <==> x in Contents(z) {
      if x in Contents(z) {
        var id :| id in z.records && z.records[id] == x;
        assert z'.records[id] == x;
      }
    }
    assert Missing(z', d) == Missing(z, d) && Unwanted(z', d) == Unwanted(z, d);
  }

  lemma SameRecords(z: Zone, z': Zone, d: seq<Ip>)
    requires z'.records == z.records
    ensures Contents(z') == Contents(z) && Distance(z', d) == Distance(z, d)
  {
    assert Missing(z', d) == Missing(z, d) && Unwanted(z', d) == Unwanted(z, d);
  }

  /** A write lowers the distance by exactly one, unless it adds an address already served or removes nothing;
      then the distance stays. */
  lemma WriteLowersDistance(z: Zone, d: seq<Ip>, w: Write)
    requires ValidZone(z) && Agrees(z, w, SetOf(d))
    ensures Distance(Apply(z, w), d) + (if Changes(z, w) && !Repeats(z, w) then 1 else 0) == Distance(z, d)
  {
    match w
    case Add(ip) => if ip in Contents(z) { AddServedKeepsDistance(z, d, ip); } else { AddLowersDistance(z, d, ip); }
    case Remove(id) => if id in z.records { RemoveLowersDistance(z, d, id); } else { SameRecords(z, Apply(z, w), d); }
  }

  lemma ExactIsDistanceZero(z: Zone, d: seq<Ip>)
    ensures Distance(z, d) == 0 <==> Contents(z) == set ip | ip in d
  {
    var wanted := set ip | ip in d;
    if Contents(z) == wanted {
      assert Missing(z, d) == {};
      forall id | id in z.records ensures id !in Unwanted(z, d) { assert z.records[id] in Contents(z); }
      assert Unwanted(z, d) == {};
    }
    if Distance(z, d) == 0 {
      forall ip ensures ip in Contents(z) <==> ip in wanted {
        if ip in Contents(z) {
          var id :| id in z.records && z.records[id] == ip;
          assert id !in Unwanted(z, d);
        }
        if ip in wanted { assert ip !in Missing(z, d); }
      }
    }
  }

  // --- Every write is accounted for ---------------------------------------------

  ghost predicate Sound(s: State, d: seq<Ip>) {
    ValidZone(s.zone) && ReconOk(s.zone, s.recon) && (Writing(s.recon) ==> s.recon.desired == d)
  }

  lemma MoveSound(s: State, d: seq<Ip>, m: Move)
    requires Sound(s, d) && Allowed(s, m)
    ensures Sound(Next(s, d, m), d)
  {
    match m
    case Begin(page) => ListKnown(s.zone, page);
    case Turn(o) => TurnEvolves(s.zone, s.recon, o);
    case Land(w) =>
      ApplyEvolves(s.zone.(late := s.zone.late - multiset{w}), w);
      ReconFrame(s.zone, Deliver(s.zone, w), s.recon);
  }

  lemma MoveLateAgrees(s: State, d: seq<Ip>, m: Move)
    requires Sound(s, d) && Allowed(s, m) && LateAgrees(s.zone, SetOf(d))
    ensures LateAgrees(Next(s, d, m).zone, SetOf(d))
  {
    match m
    case Begin(_) =>
    case Turn(o) => TurnApproaches(s.zone, s.recon, o, SetOf(d));
    case Land(w) => DeliverApproaches(s.zone, w, SetOf(d));
  }

  lemma MoveAccounted(s: State, d: seq<Ip>, m: Move)
    requires Sound(s, d) && Allowed(s, m) && (m.Land? ==> LateAgrees(s.zone, SetOf(d)))
    ensures (if Counts(s, m) then 1 else 0) + Distance(Next(s, d, m).zone, d)
            == Distance(s.zone, d) + if RepeatsAt(s, m) then 1 else 0
  {
    match m
    case Begin(_) =>
    case Turn(o) =>
      if Effect(s, m).Some? {
        WriteAgrees(s.zone, s.recon);
        WriteLowersDistance(s.zone, d, NextWrite(s.recon).value);
      } else {
        SameRecords(s.zone, Next(s, d, m).zone, d);
      }
    case Land(w) =>
      var z := s.zone.(late := s.zone.late - multiset{w});
      SameRecords(s.zone, z, d);
      WriteLowersDistance(z, d, w);
  }

  lemma SeriesFront(z: Zone, d: seq<Ip>, moves: seq<Move>, n: nat)
    requires Series(z, d, moves) && n <= |moves|
    ensures Series(z, d, moves[..n])
    ensures n < |moves| ==> Allowed(After(z, d, moves[..n]), moves[n])
  {
    forall k | 0 <= k < n ensures Allowed(After(z, d, moves[..n][..k]), moves[..n][k]) {
      assert moves[..n][..k] == moves[..k];
    }
  }

  /** No write that was on the way takes effect during the series. */
  predicate Punctual(moves: seq<Move>) { forall m :: m in moves ==> !m.Land? }

  /** Whatever crashes, fails, is lost or late, and whatever the listings leave out: the writes that changed records
      and the distance still to go add up to the initial distance and the additions of addresses already served.
      So a series wastes no write exactly if it repeats no addition. */
  lemma {:induction false} WritesAccounted(z: Zone, d: seq<Ip>, moves: seq<Move>)
    requires ValidZone(z) && Series(z, d, moves) && (Punctual(moves) || LateAgrees(z, SetOf(d)))
    ensures var s := After(z, d, moves);
            && Sound(s, d) && (LateAgrees(z, SetOf(d)) ==> LateAgrees(s.zone, SetOf(d)))
            && Writes(z, d, moves) + Distance(s.zone, d) == Distance(z, d) + Repeated(z, d, moves)
  {
    if moves == [] {
    } else {
      var front, m := moves[..|moves| - 1], moves[|moves| - 1];
      SeriesFront(z, d, moves, |moves| - 1);
      assert m in moves && forall x :: x in front ==> x in moves;
      WritesAccounted(z, d, front);
      var s := After(z, d, front);
      MoveSound(s, d, m);
      MoveAccounted(s, d, m);
      if LateAgrees(z, SetOf(d)) { MoveLateAgrees(s, d, m); }
    }
  }

  /** Nothing more is written than needed: writes made and distance to go are the initial distance. */
  predicate Minimal(z: Zone, d: seq<Ip>, moves: seq<Move>) {
    Writes(z, d, moves) + Distance(After(z, d, moves).zone, d) == Distance(z, d)
  }

  // --- Listings that show what is served ----------------------------------------

  /** The page has every desired address that is served. */
  ghost predicate Shows(z: Zone, page: seq<Record>, d: seq<Ip>) {
    forall ip :: ip in d && ip in Contents(z) ==> ip in Listed(page)
  }

  /** The addresses still to be considered by the first loop are unserved or listed. */
  ghost predicate Clear(s: State) {
    s.recon.Adding? ==>
      forall k :: s.recon.i <= k < |s.recon.desired| && s.recon.desired[k] in Contents(s.zone) ==>
        s.recon.desired[k] in Listed(s.recon.existing)
  }

  lemma ContentsAfterAdd(z: Zone, ip: Ip)
    requires ValidZone(z)
    ensures Contents(Apply(z, Add(ip))) == Contents(z) + {ip}
  {
    var z' := Apply(z, Add(ip));
    assert z'.records[z.nextId] == ip;
    forall x | x in Contents(z) ensures x in Contents(z') {
      var id :| id in z.records && z.records[id] == x;
      assert z'.records[id] == x;
    }
  }

  lemma ClearMove(s: State, d: seq<Ip>, m: Move)
    requires Distinct(d) && Sound(s, d) && Clear(s) && Allowed(s, m) && !m.Land?
    requires m.Begin? ==> Shows(s.zone, m.page, d)
    ensures Clear(Next(s, d, m)) && !RepeatsAt(s, m)
  {
    if m.Turn? && s.recon.Adding? && NextWrite(s.recon).Some? && m.o.Replied? {
      ContentsAfterAdd(s.zone, d[s.recon.i]);
    }
  }

  ghost predicate ListingsShow(z: Zone, d: seq<Ip>, moves: seq<Move>) {
    forall k :: 0 <= k < |moves| && moves[k].Begin? ==> Shows(After(z, d, moves[..k]).zone, moves[k].page, d)
  }

  lemma ListingsShowFront(z: Zone, d: seq<Ip>, moves: seq<Move>)
    requires ListingsShow(z, d, moves) && moves != []
    ensures ListingsShow(z, d, moves[..|moves| - 1])
  {
    var front := moves[..|moves| - 1];
    forall k | 0 <= k < |front| && front[k].Begin? ensures Shows(After(z, d, front[..k]).zone, front[k].page, d) {
      assert front[..k] == moves[..k];
    }
  }

  lemma {:induction false} NothingRepeated(z: Zone, d: seq<Ip>, moves: seq<Move>)
    requires ValidZone(z) && Distinct(d) && Series(z, d, moves) && Punctual(moves) && ListingsShow(z, d, moves)
    ensures Repeated(z, d, moves) == 0 && Clear(After(z, d, moves))
  {
    if moves == [] {
    } else {
      var front, m := moves[..|moves| - 1], moves[|moves| - 1];
      SeriesFront(z, d, moves, |moves| - 1);
      ListingsShowFront(z, d, moves);
      assert m in moves && forall x :: x in front ==> x in moves;
      NothingRepeated(z, d, front);
      WritesAccounted(z, d, front);
      ClearMove(After(z, d, front), d, m);
    }
  }

  /** Every listing is of at most one page of records. */
  ghost predicate OnePageListings(z: Zone, d: seq<Ip>, moves: seq<Move>) {
    forall k :: 0 <= k < |moves| && moves[k].Begin? ==> |After(z, d, moves[..k]).zone.records| <= PAGE_SIZE
  }

  lemma OnePageShows(z: Zone, page: seq<Record>, d: seq<Ip>)
    requires IsPage(z, page) && |z.records| <= PAGE_SIZE
    ensures Shows(z, page, d)
  {
    SmallZoneIsListed(z, page);
    forall ip | ip in d && ip in Contents(z) ensures ip in Listed(page) {
      var id :| id in z.records && z.records[id] == ip;
      assert Record(id, ip) in page;
    }
  }

  lemma OnePageListingsShow(z: Zone, d: seq<Ip>, moves: seq<Move>)
    requires Series(z, d, moves) && OnePageListings(z, d, moves)
    ensures ListingsShow(z, d, moves)
  {
    forall k | 0 <= k < |moves| && moves[k].Begin? ensures Shows(After(z, d, moves[..k]).zone, moves[k].page, d) {
      OnePageShows(After(z, d, moves[..k]).zone, moves[k].page, d);
    }
  }

  /** With the same desired list and at most one page of records at each listing, any series of crashed, failed and
      repeated reconciles makes only needed writes, at every moment. */
  lemma RetriesAreMinimal(z: Zone, d: seq<Ip>, moves: seq<Move>)
    requires ValidZone(z) && Distinct(d) && Series(z, d, moves) && Punctual(moves) && OnePageListings(z, d, moves)
    ensures Minimal(z, d, moves)
  {
    OnePageListingsShow(z, d, moves);
    NothingRepeated(z, d, moves);
    WritesAccounted(z, d, moves);
  }

  // --- Exactly when every series is minimal -------------------------------------

  /** Records that serve another address than `ip`. */
  function Others(z: Zone, ip: Ip): set<nat> { set id | id in z.records && z.records[id] != ip }

  /** How many records can come to stand beside those of `ip`. */
  function Room(z: Zone, d: seq<Ip>, ip: Ip): nat { |Others(z, ip)| + |Missing(z, d) - {ip}| }

  /** No desired address can be crowded off a page by other records, present or still to be added. */
  ghost predicate Fits(z: Zone, d: seq<Ip>) { forall ip :: ip in d ==> Room(z, d, ip) < PAGE_SIZE }

  lemma OthersAfterAdd(z: Zone, x: Ip, ip: Ip)
    requires ValidZone(z)
    ensures |Others(Apply(z, Add(x)), ip)| == |Others(z, ip)| + if x == ip then 0 else 1
  {
    var others := Others(Apply(z, Add(x)), ip);
    assert z.nextId !in Others(z, ip);
    if x == ip { assert others == Others(z, ip); } else { assert others == Others(z, ip) + {z.nextId}; }
  }

  lemma MissingLosesAdded(z: Zone, d: seq<Ip>, x: Ip)
    requires ValidZone(z)
    ensures Missing(Apply(z, Add(x)), d) == Missing(z, d) - {x}
  {
    ContentsAfterAdd(z, x);
  }

  lemma MissingAfterAdd(z: Zone, d: seq<Ip>, x: Ip, ip: Ip)
    requires ValidZone(z) && x in d
    ensures |Missing(Apply(z, Add(x)), d) - {ip}|
            == |Missing(z, d) - {ip}| - if x == ip || x in Contents(z) then 0 else 1
  {
    var before, after := Missing(z, d) - {ip}, Missing(Apply(z, Add(x)), d) - {ip};
    MissingLosesAdded(z, d, x);
    if x == ip || x in Contents(z) {
      assert after == before;
    } else {
      assert x in Missing(z, d);
      assert before == after + {x};
    }
  }

  lemma RoomAfterAdd(z: Zone, d: seq<Ip>, x: Ip, ip: Ip)
    requires ValidZone(z) && x in d
    ensures Room(Apply(z, Add(x)), d, ip) >= Room(z, d, ip)
    ensures x !in Contents(z) ==> Room(Apply(z, Add(x)), d, ip) == Room(z, d, ip)
  {
    OthersAfterAdd(z, x, ip);
    MissingAfterAdd(z, d, x, ip);
  }

  lemma RoomAfterRemove(z: Zone, d: seq<Ip>, id: nat, ip: Ip)
    requires id in z.records ==> z.records[id] !in d
    ensures Room(Apply(z, Remove(id)), d, ip) <= Room(z, d, ip)
  {
    var z' := Apply(z, Remove(id));
    forall x | x in d && x in Contents(z) ensures x in Contents(z') {
      var k :| k in z.records && z.records[k] == x;
      assert z'.records[k] == x;
    }
    Subset(Others(z', ip), Others(z, ip));
    Subset(Missing(z', d) - {ip}, Missing(z, d) - {ip});
  }

  lemma Subset<T>(a: set<T>, b: set<T>)
    requires a <= b
    ensures |a| <= |b|
  {
    assert b == a + (b - a);
  }

  lemma RoomOfSameRecords(z: Zone, z': Zone, d: seq<Ip>, ip: Ip)
    requires z'.records == z.records
    ensures Room(z', d, ip) == Room(z, d, ip)
  {
    assert Others(z', ip) == Others(z, ip) && Missing(z', d) - {ip} == Missing(z, d) - {ip};
  }

  lemma RoomAfterWrite(z: Zone, d: seq<Ip>, w: Write, ip: Ip)
    requires ValidZone(z) && Agrees(z, w, SetOf(d)) && !Repeats(z, w)
    ensures Room(Apply(z, w), d, ip) <= Room(z, d, ip)
  {
    match w
    case Add(x) => RoomAfterAdd(z, d, x, ip);
    case Remove(id) => RoomAfterRemove(z, d, id, ip);
  }

  lemma ZoneAfterMove(s: State, d: seq<Ip>, m: Move)
    requires Allowed(s, m) && !m.Land?
    ensures Effect(s, m).Some? ==>
              Effect(s, m) == NextWrite(s.recon) && Next(s, d, m).zone == Apply(s.zone, Effect(s, m).value)
    ensures Effect(s, m).None? ==> Next(s, d, m).zone.records == s.zone.records
  {
  }

  lemma RoomAfterMove(s: State, d: seq<Ip>, m: Move, ip: Ip)
    requires Sound(s, d) && Allowed(s, m) && !m.Land? && !RepeatsAt(s, m)
    ensures Room(Next(s, d, m).zone, d, ip) <= Room(s.zone, d, ip)
  {
    var z' := Next(s, d, m).zone;
    ZoneAfterMove(s, d, m);
    if Effect(s, m).Some? {
      WriteAgrees(s.zone, s.recon);
      assert Writing(s.recon);
      RoomAfterWrite(s.zone, d, Effect(s, m).value, ip);
    } else {
      RoomOfSameRecords(s.zone, z', d, ip);
    }
  }

  /** A page that leaves out an address is full of the records of others. */
  lemma RoomShows(z: Zone, page: seq<Record>, d: seq<Ip>, ip: Ip)
    requires IsPage(z, page) && Room(z, d, ip) < PAGE_SIZE && ip in Contents(z)
    ensures ip in Listed(page)
  {
    if |z.records| <= PAGE_SIZE {
      OnePageShows(z, page, [ip]);
    } else if ip !in Listed(page) {
      IdsSize(page);
      forall id | id in Ids(page) ensures id in Others(z, ip) {
        var r :| r in page && r.id == id;
        assert Holds(z, r);
      }
      Subset(Ids(page), Others(z, ip));
    }
  }

  lemma {:induction false} FittingSeries(z: Zone, d: seq<Ip>, moves: seq<Move>)
    requires ValidZone(z) && Distinct(d) && Series(z, d, moves) && Punctual(moves) && Fits(z, d)
    ensures Repeated(z, d, moves) == 0 && Clear(After(z, d, moves)) && Fits(After(z, d, moves).zone, d)
  {
    if moves == [] {
    } else {
      var front, m := moves[..|moves| - 1], moves[|moves| - 1];
      SeriesFront(z, d, moves, |moves| - 1);
      assert m in moves && forall x :: x in front ==> x in moves;
      FittingSeries(z, d, front);
      WritesAccounted(z, d, front);
      var s := After(z, d, front);
      if m.Begin? {
        forall ip | ip in d && ip in Contents(s.zone) ensures ip in Listed(m.page) { RoomShows(s.zone, m.page, d, ip); }
      }
      ClearMove(s, d, m);
      forall ip | ip in d ensures Room(Next(s, d, m).zone, d, ip) < PAGE_SIZE { RoomAfterMove(s, d, m, ip); }
    }
  }

  lemma Append(z: Zone, d: seq<Ip>, moves: seq<Move>, m: Move)
    requires Series(z, d, moves) && Allowed(After(z, d, moves), m)
    ensures Series(z, d, moves + [m]) && After(z, d, moves + [m]) == Next(After(z, d, moves), d, m)
    ensures Repeated(z, d, moves + [m]) == Repeated(z, d, moves) + if RepeatsAt(After(z, d, moves), m) then 1 else 0
    ensures Punctual(moves) && !m.Land? ==> Punctual(moves + [m])
  {
    var longer := moves + [m];
    assert longer[..|moves|] == moves;
    forall k | 0 <= k < |longer| ensures Allowed(After(z, d, longer[..k]), longer[k]) {
      if k < |moves| { assert longer[..k] == moves[..k]; }
    }
  }

  /** What the first loop has done to the zone `z` it listed after `n` turns, every call answered. */
  ghost predicate AddedSoFar(z: Zone, d: seq<Ip>, z': Zone, n: nat)
    requires n <= |d|
  {
    && ValidZone(z') && Kept(z, z')
    && (forall k :: 0 <= k < n ==> d[k] in Contents(z'))
    && (forall ip :: Room(z', d, ip) >= Room(z, d, ip))
  }

  lemma AddOne(z: Zone, page: seq<Record>, d: seq<Ip>, z': Zone, n: nat)
    requires IsPage(z, page) && n < |d| && AddedSoFar(z, d, z', n)
    ensures AddedSoFar(z, d, Step(z', Adding(d, page, n), Replied).0, n + 1)
  {
    var x := d[n];
    if x in Listed(page) {
      var r :| r in page && r.content == x;
      assert Holds(z, r) && z'.records[r.id] == x;
    } else {
      ContentsAfterAdd(z', x);
      forall ip ensures Room(Apply(z', Add(x)), d, ip) >= Room(z, d, ip) { RoomAfterAdd(z', d, x, ip); }
    }
  }

  lemma AddTurn(z: Zone, d: seq<Ip>, moves: seq<Move>, page: seq<Record>, i: nat) returns (longer: seq<Move>)
    requires Series(z, d, moves) && Punctual(moves) && i < |d| && After(z, d, moves).recon == Adding(d, page, i)
    ensures Series(z, d, longer) && Punctual(longer) && Repeated(z, d, longer) >= Repeated(z, d, moves)
    ensures var s, s' := After(z, d, moves), After(z, d, longer);
            && s'.recon == Adding(d, page, i + 1) && s'.zone == Step(s.zone, s.recon, Replied).0
            && s'.zone.late == s.zone.late
  {
    Append(z, d, moves, Turn(Replied));
    longer := moves + [Turn(Replied)];
  }

  /** The first `n` turns of a reconcile that has just listed, every call answered. */
  lemma {:induction false} AddTurns(z: Zone, d: seq<Ip>, moves: seq<Move>, page: seq<Record>, n: nat)
    returns (longer: seq<Move>)
    requires Series(z, d, moves) && Punctual(moves) && n <= |d|
    requires var s := After(z, d, moves);
             s.recon == Adding(d, page, 0) && ValidZone(s.zone) && IsPage(s.zone, page)
    ensures Series(z, d, longer) && Punctual(longer) && Repeated(z, d, longer) >= Repeated(z, d, moves)
    ensures After(z, d, longer).recon == Adding(d, page, n)
    ensures AddedSoFar(After(z, d, moves).zone, d, After(z, d, longer).zone, n)
    ensures After(z, d, longer).zone.late == After(z, d, moves).zone.late
  {
    if n == 0 {
      longer := moves;
    } else {
      var before := AddTurns(z, d, moves, page, n - 1);
      AddOne(After(z, d, moves).zone, page, d, After(z, d, before).zone, n - 1);
      longer := AddTurn(z, d, before, page, n - 1);
    }
  }

  lemma FirstMove(z: Zone, d: seq<Ip>, page: seq<Record>)
    requires IsPage(z, page)
    ensures Series(z, d, [Begin(page)]) && After(z, d, [Begin(page)]) == State(z, Adding(d, page, 0), page, z)
  {
    assert After(z, d, []) == Start(z, d) && [] + [Begin(page)] == [Begin(page)];
    Append(z, d, [], Begin(page));
  }

  /** A listing and the whole first loop. */
  lemma ListAndAdd(z: Zone, d: seq<Ip>) returns (moves: seq<Move>)
    requires ValidZone(z)
    ensures Series(z, d, moves) && Punctual(moves) && AddedSoFar(z, d, After(z, d, moves).zone, |d|)
  {
    var page := SomePage(z);
    FirstMove(z, d, page);
    moves := AddTurns(z, d, [Begin(page)], page, |d|);
    assert After(z, d, [Begin(page)]).zone == z;
  }

  /** A page of a zone that has enough records of other addresses need not show `ip`. */
  lemma PageWithout(z: Zone, ip: Ip) returns (page: seq<Record>)
    requires ip in Contents(z) && |Others(z, ip)| >= PAGE_SIZE
    ensures IsPage(z, page) && ip !in Listed(page)
  {
    page := PickRecords(z, Others(z, ip), PAGE_SIZE);
    var id :| id in z.records && z.records[id] == ip;
    Subset(Others(z, ip) + {id}, z.records.Keys);
    forall r | r in page ensures r.content != ip { assert Holds(z, r); }
  }

  /** An address that is served but not on the page is added again. */
  lemma AddAgain(z: Zone, d: seq<Ip>, moves: seq<Move>, page: seq<Record>, i: nat) returns (longer: seq<Move>)
    requires Series(z, d, moves) && Punctual(moves) && i < |d| && ValidZone(After(z, d, moves).zone)
    requires var s := After(z, d, moves);
             IsPage(s.zone, page) && d[i] in Contents(s.zone) && d[i] !in Listed(page)
    ensures Series(z, d, longer) && Punctual(longer) && Repeated(z, d, longer) >= 1
  {
    var z1 := After(z, d, moves).zone;
    Append(z, d, moves, Begin(page));
    longer := AddTurns(z, d, moves + [Begin(page)], page, i);
    var id :| id in z1.records && z1.records[id] == d[i];
    assert After(z, d, longer).zone.records[id] == d[i];
    Append(z, d, longer, Turn(Replied));
    longer := longer + [Turn(Replied)];
  }

  /** Where an address can be crowded off the page, it is added twice: one reconcile crashes after its additions,
      and the next one is given a page without the address. */
  lemma RepeatedAddition(z: Zone, d: seq<Ip>, ip: Ip) returns (moves: seq<Move>)
    requires ValidZone(z) && ip in d && Room(z, d, ip) >= PAGE_SIZE
    ensures Series(z, d, moves) && Punctual(moves) && Repeated(z, d, moves) >= 1
  {
    moves := ListAndAdd(z, d);
    var z1 := After(z, d, moves).zone;
    var i :| 0 <= i < |d| && d[i] == ip;
    NothingMissing(z1, d, ip);
    assert Room(z1, d, ip) >= Room(z, d, ip);
    var page := PageWithout(z1, ip);
    moves := AddAgain(z, d, moves, page, i);
  }

  lemma NothingMissing(z: Zone, d: seq<Ip>, ip: Ip)
    requires forall k :: 0 <= k < |d| ==> d[k] in Contents(z)
    ensures Room(z, d, ip) == |Others(z, ip)|
  {
    forall x | x in d ensures x in Contents(z) { var k :| 0 <= k < |d| && d[k] == x; }
    assert Missing(z, d) - {ip} == {};
  }

  /** Over all series of crashed, failed and repeated reconciles from a zone of any size: every one of them makes only
      needed writes exactly if no desired address can be crowded off a page. From a zone of at most one page that is:
      exactly if the records and the missing addresses together fit one page. */
  lemma MinimalExactlyWhenItFits(z: Zone, d: seq<Ip>)
    requires ValidZone(z) && Distinct(d)
    ensures (forall moves :: Series(z, d, moves) && Punctual(moves) ==> Minimal(z, d, moves)) <==> Fits(z, d)
    ensures |z.records| <= PAGE_SIZE ==> (Fits(z, d) <==> |z.records| + |Missing(z, d)| <= PAGE_SIZE)
  {
    forall ip | ip in d { RoomBound(z, d, ip); }
    if Fits(z, d) && Missing(z, d) != {} {
      var ip :| ip in Missing(z, d);
      assert Room(z, d, ip) + 1 == |z.records| + |Missing(z, d)|;
    }
    if Fits(z, d) {
      forall moves | Series(z, d, moves) && Punctual(moves) ensures Minimal(z, d, moves) {
        FittingSeries(z, d, moves);
        WritesAccounted(z, d, moves);
      }
    } else {
      var ip :| ip in d && Room(z, d, ip) >= PAGE_SIZE;
      var moves := RepeatedAddition(z, d, ip);
      WritesAccounted(z, d, moves);
      assert !Minimal(z, d, moves);
    }
  }

  lemma RoomBound(z: Zone, d: seq<Ip>, ip: Ip)
    requires ip in d
    ensures Room(z, d, ip) + 1 <= |z.records| + |Missing(z, d)|
    ensures ip !in Contents(z) ==> Room(z, d, ip) + 1 == |z.records| + |Missing(z, d)|
  {
    assert |z.records.Keys| == |z.records|;
    if ip in Contents(z) {
      var id :| id in z.records && z.records[id] == ip;
      assert id !in Others(z, ip);
      Subset(Others(z, ip) + {id}, z.records.Keys);
      assert Missing(z, d) - {ip} == Missing(z, d);
    } else {
      forall id | id in z.records ensures z.records[id] != ip { assert z.records[id] in Contents(z); }
      assert Others(z, ip) == z.records.Keys;
      assert Missing(z, d) == Missing(z, d) - {ip} + {ip};
    }
  }

  // --- Late writes --------------------------------------------------------------

  /** Every desired address is served, none can be crowded off a page, and no addition is on the way. */
  ghost predicate Settled(z: Zone, d: seq<Ip>) {
    Missing(z, d) == {} && Fits(z, d) && forall w :: w in z.late ==> w.Remove?
  }

  /** No addition is issued in such a zone: the first loop finds every desired address listed. */
  ghost predicate Calm(s: State, d: seq<Ip>) {
    && Settled(s.zone, d)
    && (s.recon.Adding? ==> forall ip :: ip in d ==> ip in Listed(s.recon.existing))
  }

  lemma RemoveKeepsSettled(z: Zone, d: seq<Ip>, id: nat)
    requires Settled(z, d) && (id in z.records ==> z.records[id] !in d)
    ensures Settled(Apply(z, Remove(id)), d)
  {
    if id in z.records { RemoveLowersDistance(z, d, id); } else { SameRecords(z, Apply(z, Remove(id)), d); }
    forall ip | ip in d ensures Room(Apply(z, Remove(id)), d, ip) < PAGE_SIZE { RoomAfterRemove(z, d, id, ip); }
  }

  lemma LateKeepsSettled(z: Zone, d: seq<Ip>, late: multiset<Write>)
    requires Settled(z, d) && forall w :: w in late ==> w.Remove?
    ensures Settled(z.(late := late), d)
  {
    SameRecords(z, z.(late := late), d);
    forall ip | ip in d ensures Room(z.(late := late), d, ip) < PAGE_SIZE {
      RoomOfSameRecords(z, z.(late := late), d, ip);
    }
  }

  lemma SettledPage(z: Zone, d: seq<Ip>, page: seq<Record>)
    requires Settled(z, d) && IsPage(z, page)
    ensures forall ip :: ip in d ==> ip in Listed(page)
  {
    forall ip | ip in d ensures ip in Listed(page) {
      assert ip !in Missing(z, d);
      RoomShows(z, page, d, ip);
    }
  }

  lemma CalmTurn(s: State, d: seq<Ip>, o: Outcome)
    requires Sound(s, d) && Calm(s, d) && Writing(s.recon)
    ensures Calm(Next(s, d, Turn(o)), d) && !RepeatsAt(s, Turn(o))
  {
    if NextWrite(s.recon).Some? {
      var w := NextWrite(s.recon).value;
      WriteAgrees(s.zone, s.recon);
      RemoveKeepsSettled(s.zone, d, w.id);
      LateKeepsSettled(s.zone, d, s.zone.late + multiset{w});
    }
  }

  lemma CalmMove(s: State, d: seq<Ip>, m: Move)
    requires Sound(s, d) && Calm(s, d) && LateAgrees(s.zone, SetOf(d)) && Allowed(s, m)
    ensures Calm(Next(s, d, m), d) && !RepeatsAt(s, m)
  {
    match m
    case Begin(page) => SettledPage(s.zone, d, page);
    case Turn(o) => CalmTurn(s, d, o);
    case Land(w) =>
      var late := s.zone.late - multiset{w};
      assert forall x :: x in late ==> x in s.zone.late;
      LateKeepsSettled(s.zone, d, late);
      RemoveKeepsSettled(s.zone.(late := late), d, w.id);
  }

  lemma {:induction false} CalmThroughout(z: Zone, d: seq<Ip>, moves: seq<Move>)
    requires ValidZone(z) && LateAgrees(z, SetOf(d)) && Settled(z, d) && Series(z, d, moves)
    ensures Calm(After(z, d, moves), d) && Repeated(z, d, moves) == 0
  {
    if moves == [] {
    } else {
      var front, m := moves[..|moves| - 1], moves[|moves| - 1];
      SeriesFront(z, d, moves, |moves| - 1);
      CalmThroughout(z, d, front);
      WritesAccounted(z, d, front);
      CalmMove(After(z, d, front), d, m);
    }
  }

  /** The call for the missing address `d[i]` fails for its caller. */
  lemma FailAddition(z: Zone, d: seq<Ip>, i: nat) returns (moves: seq<Move>)
    requires ValidZone(z) && i < |d| && d[i] !in Contents(z)
    ensures Series(z, d, moves) && Punctual(moves)
    ensures ValidZone(After(z, d, moves).zone) && Add(d[i]) in After(z, d, moves).zone.late
  {
    var page := SomePage(z);
    FirstMove(z, d, page);
    moves := AddTurns(z, d, [Begin(page)], page, i);
    forall r | r in page ensures r.content != d[i] { assert Holds(z, r); }
    Append(z, d, moves, Turn(Late));
    moves := moves + [Turn(Late)];
  }

  /** A late write doubles an addition, with room on the page too: the call for a missing address fails, the next
      reconcile adds the address, and then the first call takes effect. */
  lemma LateAdditionIsRepeated(z: Zone, d: seq<Ip>, i: nat) returns (moves: seq<Move>)
    requires ValidZone(z) && i < |d| && d[i] !in Contents(z)
    ensures Series(z, d, moves) && Repeated(z, d, moves) >= 1
  {
    var failed := FailAddition(z, d, i);
    var page := SomePage(After(z, d, failed).zone);
    Append(z, d, failed, Begin(page));
    moves := AddTurns(z, d, failed + [Begin(page)], page, |d|);
    Append(z, d, moves, Land(Add(d[i])));
    moves := moves + [Land(Add(d[i]))];
  }

  /** So does an addition that was on the way from the start. */
  lemma EarlierAdditionIsRepeated(z: Zone, d: seq<Ip>, w: Write) returns (moves: seq<Move>)
    requires w in z.late && w.Add? && w.ip in Contents(z)
    ensures Series(z, d, moves) && Repeated(z, d, moves) >= 1
  {
    moves := [];
    assert After(z, d, moves) == Start(z, d);
    Append(z, d, moves, Land(w));
    moves := moves + [Land(w)];
  }

  lemma UnsettledRepeats(z: Zone, d: seq<Ip>) returns (moves: seq<Move>)
    requires ValidZone(z) && LateAgrees(z, SetOf(d)) && !Settled(z, d)
    ensures Series(z, d, moves) && Repeated(z, d, moves) >= 1
  {
    if !Fits(z, d) {
      var ip :| ip in d && Room(z, d, ip) >= PAGE_SIZE;
      moves := RepeatedAddition(z, d, ip);
    } else if Missing(z, d) != {} {
      var ip :| ip in Missing(z, d);
      var i :| 0 <= i < |d| && d[i] == ip;
      moves := LateAdditionIsRepeated(z, d, i);
    } else {
      var w :| w in z.late && w.Add?;
      assert w.ip in SetOf(d) && w.ip !in Missing(z, d);
      moves := EarlierAdditionIsRepeated(z, d, w);
    }
  }

  /** With late writes: every series from the zone makes only needed writes exactly if every desired address is served
      already, none can be crowded off a page, and no addition is on the way. */
  lemma MinimalDespiteLateWrites(z: Zone, d: seq<Ip>)
    requires ValidZone(z) && Distinct(d) && LateAgrees(z, SetOf(d))
    ensures (forall moves :: Series(z, d, moves) ==> Minimal(z, d, moves))
            <==> Missing(z, d) == {} && Fits(z, d) && forall w :: w in z.late ==> w.Remove?
  {
    if Settled(z, d) {
      forall moves | Series(z, d, moves) ensures Minimal(z, d, moves) {
        CalmThroughout(z, d, moves);
        WritesAccounted(z, d, moves);
      }
    } else {
      var moves := UnsettledRepeats(z, d);
      WritesAccounted(z, d, moves);
      assert !Minimal(z, d, moves);
    }
  }

  // --- Completed series ---------------------------------------------------------

  /** The current reconcile has had the zone to itself since it listed at most one page. */
  ghost predicate Alone(s: State, d: seq<Ip>) {
    !s.recon.Listing? ==>
      && ValidZone(s.base) && IsPage(s.base, s.page) && |s.base.records| <= PAGE_SIZE
      && Solo(s.base, s.page, d, s.zone, s.recon)
  }

  lemma AloneMove(s: State, d: seq<Ip>, m: Move)
    requires ValidZone(s.zone) && Alone(s, d) && Allowed(s, m) && !m.Land?
    requires m.Begin? ==> |s.zone.records| <= PAGE_SIZE
    ensures Alone(Next(s, d, m), d)
  {
    if m.Turn? { SoloStep(s.base, s.page, d, s.zone, s.recon, m.o); }
  }

  lemma {:induction false} AloneThroughout(z: Zone, d: seq<Ip>, moves: seq<Move>)
    requires ValidZone(z) && Series(z, d, moves) && Punctual(moves) && OnePageListings(z, d, moves)
    ensures Alone(After(z, d, moves), d)
  {
    if moves == [] {
    } else {
      var front, m := moves[..|moves| - 1], moves[|moves| - 1];
      OnePageFront(z, d, moves, |moves| - 1);
      assert m in moves && forall x :: x in front ==> x in moves;
      AloneThroughout(z, d, front);
      WritesAccounted(z, d, front);
      AloneMove(After(z, d, front), d, m);
    }
  }

  lemma OnePageFront(z: Zone, d: seq<Ip>, moves: seq<Move>, n: nat)
    requires Series(z, d, moves) && OnePageListings(z, d, moves) && n <= |moves|
    ensures Series(z, d, moves[..n]) && OnePageListings(z, d, moves[..n])
  {
    SeriesFront(z, d, moves, n);
    forall k | 0 <= k < n && moves[..n][k].Begin?
      ensures |After(z, d, moves[..n][..k]).zone.records| <= PAGE_SIZE
    {
      assert moves[..n][..k] == moves[..k];
    }
  }

  lemma {:induction false} WritesGrow(z: Zone, d: seq<Ip>, moves: seq<Move>, n: nat)
    requires n <= |moves|
    ensures Writes(z, d, moves[..n]) <= Writes(z, d, moves)
  {
    if n == |moves| {
      assert moves[..n] == moves;
    } else {
      var front := moves[..|moves| - 1];
      WritesGrow(z, d, front, n);
      assert front[..n] == moves[..n];
    }
  }

  /** Once a reconcile of a series finishes without an error, the zone serves exactly the desired addresses, and the
      writes so far equal the initial distance; whatever reconciles follow, they write nothing and the zone stays. */
  lemma CompletedSeries(z: Zone, d: seq<Ip>, moves: seq<Move>, n: nat)
    requires ValidZone(z) && Distinct(d) && Series(z, d, moves) && Punctual(moves) && OnePageListings(z, d, moves)
    requires n <= |moves|
    ensures After(z, d, moves[..n]).recon.Finished? ==>
              && Contents(After(z, d, moves[..n]).zone) == SetOf(d) == Contents(After(z, d, moves).zone)
              && Writes(z, d, moves[..n]) == Distance(z, d) == Writes(z, d, moves)
  {
    var s := After(z, d, moves[..n]);
    OnePageFront(z, d, moves, n);
    assert forall x :: x in moves[..n] ==> x in moves;
    AloneThroughout(z, d, moves[..n]);
    RetriesAreMinimal(z, d, moves[..n]);
    RetriesAreMinimal(z, d, moves);
    WritesGrow(z, d, moves, n);
    if s.recon.Finished? {
      SmallZoneIsListed(s.base, s.page);
      forall id | id in s.base.records ensures id in Ids(s.page) { assert Record(id, s.base.records[id]) in s.page; }
      FinishedExact(s.base, s.page, d, s.zone);
      ExactIsDistanceZero(s.zone, d);
      ExactIsDistanceZero(After(z, d, moves).zone, d);
    }
  }
}
