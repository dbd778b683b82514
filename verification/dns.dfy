/** The hostname's A records at the DNS provider, and the desired address list
    (apps/dokploy/lb-controller.ts, `cf` and the head of `reconcile`). */
module Dns {
  import opened Ordering

  type Ip = string

  datatype Member = Member(name: string, publicIp: Ip)
  datatype LbConfig = LbConfig(hostname: string, zoneName: string, cfToken: string, enabled: bool, members: seq<Member>)
  datatype ZoneRow = ZoneRow(id: string, name: string)
  datatype Record = Record(id: nat, content: Ip)
  datatype Write = Add(ip: Ip) | Remove(id: nat)

  /** The configuration asks for the hostname to be edited. */
  ghost predicate SwitchedOn(cfg: LbConfig) { cfg.enabled && cfg.hostname != "" && cfg.cfToken != "" }

  /** What one write call can do: take effect and be acknowledged, be refused, take effect
      with the acknowledgement lost, or fail for the caller and take effect at a later moment. */
  datatype Outcome = Replied | Refused | Lost | Late

  /** The A records of the hostname. Record ids are handed out once; `late` are writes still on the way. */
  datatype Zone = Zone(records: map<nat, Ip>, nextId: nat, late: multiset<Write>)

  const PAGE_SIZE := 100

  ghost predicate ValidZone(z: Zone) {
    && (forall id :: id in z.records ==> id < z.nextId)
    && (forall w :: w in z.late && w.Remove? ==> w.id < z.nextId)
  }

  function Contents(z: Zone): set<Ip> { set id | id in z.records :: z.records[id] }

  function Apply(z: Zone, w: Write): Zone {
    match w
    case Add(ip) => z.(records := z.records[z.nextId := ip], nextId := z.nextId + 1)
    case Remove(id) => z.(records := z.records - {id})
  }

  /** The zone after write `w` was sent and ended with outcome `o`. */
  function Settle(z: Zone, w: Write, o: Outcome): Zone {
    match o
    case Replied => Apply(z, w)
    case Lost => Apply(z, w)
    case Refused => z
    case Late => z.(late := z.late + multiset{w})
  }

  /** A write that was on the way takes effect. */
  function Deliver(z: Zone, w: Write): Zone { Apply(z.(late := z.late - multiset{w}), w) }

  ghost predicate DistinctIds(rs: seq<Record>) {
    forall i, j :: 0 <= i < j < |rs| ==> rs[i].id != rs[j].id
  }

  ghost predicate Holds(z: Zone, r: Record) { r.id in z.records && z.records[r.id] == r.content }

  /** One answer of the list call: all records, or PAGE_SIZE of them if there are more, in any order. */
  ghost predicate IsPage(z: Zone, page: seq<Record>) {
    && DistinctIds(page)
    && (forall r :: r in page ==> Holds(z, r))
    && |page| == if |z.records| <= PAGE_SIZE then |z.records| else PAGE_SIZE
  }

  ghost predicate ListsAll(z: Zone, page: seq<Record>) {
    forall id :: id in z.records ==> Record(id, z.records[id]) in page
  }

  function Ids(rs: seq<Record>): set<nat> { set r | r in rs :: r.id }

  lemma HeadId(rs: seq<Record>)
    requires rs != [] && DistinctIds(rs)
    ensures Ids(rs) == {rs[0].id} + Ids(rs[1..]) && rs[0].id !in Ids(rs[1..])
  {
    assert forall r :: r in rs <==> r == rs[0] || r in rs[1..] by { assert rs == [rs[0]] + rs[1..]; }
    forall k | 0 <= k < |rs[1..]| ensures rs[1..][k].id != rs[0].id { assert rs[1..][k] == rs[k + 1]; }
  }

  lemma {:induction false} IdsSize(rs: seq<Record>)
    requires DistinctIds(rs)
    ensures |Ids(rs)| == |rs|
  {
    if rs == [] {
    } else {
      IdsSize(rs[1..]);
      HeadId(rs);
    }
  }

  /** Up to PAGE_SIZE records fit one page, so the list call misses none of them. */
  lemma SmallZoneIsListed(z: Zone, page: seq<Record>)
    requires IsPage(z, page) && |z.records| <= 100
    ensures ListsAll(z, page)
  {
    IdsSize(page);
    assert Ids(page) <= z.records.Keys;
    SubsetOfSameSize(Ids(page), z.records.Keys);
    forall id | id in z.records ensures Record(id, z.records[id]) in page {
      assert id in Ids(page);
      var r :| r in page && r.id == id;
      assert Holds(z, r) && r == Record(id, z.records[id]);
    }
  }

  lemma SubsetOfSameSize(a: set<nat>, b: set<nat>)
    requires a <= b && |a| == |b|
    ensures a == b
  {
    assert b == a + (b - a);
    assert |b - a| == 0;
  }

  /** Any `n` records with ids in `ids`, in some order. */
  lemma {:induction false} PickRecords(z: Zone, ids: set<nat>, n: nat) returns (page: seq<Record>)
    requires ids <= z.records.Keys && n <= |ids|
    ensures DistinctIds(page) && |page| == n
    ensures forall r :: r in page ==> Holds(z, r) && r.id in ids
    decreases n
  {
    if n == 0 {
      page := [];
    } else {
      var id :| id in ids;
      var tail := PickRecords(z, ids - {id}, n - 1);
      page := [Record(id, z.records[id])] + tail;
    }
  }

  /** Some answer of the list call always exists. */
  lemma SomePage(z: Zone) returns (page: seq<Record>)
    ensures IsPage(z, page)
  {
    assert |z.records.Keys| == |z.records|;
    page := PickRecords(z, z.records.Keys, if |z.records| <= PAGE_SIZE then |z.records| else PAGE_SIZE);
  }

  // --- Moving towards a set of addresses ----------------------------------------

  function SetOf(d: seq<Ip>): set<Ip> { set ip | ip in d }

  /** Writes still on the way add addresses of `D` and remove records outside it. */
  ghost predicate LateAgrees(z: Zone, D: set<Ip>) {
    && (forall w :: w in z.late && w.Add? ==> w.ip in D)
    && (forall w :: w in z.late && w.Remove? && w.id in z.records ==> z.records[w.id] !in D)
  }

  /** Records inside `D` only grow and records outside `D` only shrink. */
  ghost predicate Approaches(z: Zone, z': Zone, D: set<Ip>) {
    && (forall id :: id in z.records && z.records[id] in D ==> id in z'.records && z'.records[id] == z.records[id])
    && (forall id :: id in z'.records && z'.records[id] !in D ==> id in z.records && z.records[id] == z'.records[id])
  }

  ghost predicate Agrees(z: Zone, w: Write, D: set<Ip>) {
    (w.Add? ==> w.ip in D) && (w.Remove? ==> w.id < z.nextId && (w.id in z.records ==> z.records[w.id] !in D))
  }

  lemma ApplyApproaches(z: Zone, w: Write, D: set<Ip>)
    requires ValidZone(z) && LateAgrees(z, D) && Agrees(z, w, D)
    ensures Approaches(z, Apply(z, w), D) && LateAgrees(Apply(z, w), D) && ValidZone(Apply(z, w))
  {
  }

  lemma SettleAgrees(z: Zone, w: Write, o: Outcome, D: set<Ip>)
    requires ValidZone(z) && LateAgrees(z, D) && Agrees(z, w, D)
    ensures LateAgrees(Settle(z, w, o), D) && ValidZone(Settle(z, w, o))
  {
    if o.Replied? || o.Lost? { ApplyApproaches(z, w, D); }
  }

  lemma DeliverApproaches(z: Zone, w: Write, D: set<Ip>)
    requires ValidZone(z) && LateAgrees(z, D) && w in z.late
    ensures Approaches(z, Deliver(z, w), D) && LateAgrees(Deliver(z, w), D) && ValidZone(Deliver(z, w))
  {
    ApplyApproaches(z.(late := z.late - multiset{w}), w, D);
  }

  lemma ServedStays(z: Zone, z': Zone, D: set<Ip>)
    requires Approaches(z, z', D)
    ensures forall ip :: ip in D && ip in Contents(z) ==> ip in Contents(z')
  {
    forall ip | ip in D && ip in Contents(z) ensures ip in Contents(z') {
      var id :| id in z.records && z.records[id] == ip;
      assert z'.records[id] == ip;
    }
  }

  // --- The desired addresses ----------------------------------------------------

  /** Addresses of the members whose probe succeeded, empty ones dropped, in member order. */
  function Reachable(members: seq<Member>, oks: seq<bool>): seq<Ip>
    requires |members| == |oks|
  {
    if members == [] then []
    else (if oks[0] && members[0].publicIp != "" then [members[0].publicIp] else [])
         + Reachable(members[1..], oks[1..])
  }

  function Self(s: string): string { s }

  function Desired(members: seq<Member>, oks: seq<bool>): seq<Ip>
    requires |members| == |oks|
  {
    Sort(Dedup(Reachable(members, oks)), Self)
  }

  /** The members' non-empty public addresses with a successful probe. */
  ghost predicate Healthy(members: seq<Member>, oks: seq<bool>, ip: Ip)
    requires |members| == |oks|
  {
    ip != "" && exists k :: 0 <= k < |members| && members[k].publicIp == ip && oks[k]
  }

  lemma {:induction false} ReachableIsHealthy(members: seq<Member>, oks: seq<bool>, ip: Ip)
    requires |members| == |oks|
    ensures ip in Reachable(members, oks) <==> Healthy(members, oks, ip)
  {
    if members == [] {
    } else {
      ReachableIsHealthy(members[1..], oks[1..], ip);
      if Healthy(members[1..], oks[1..], ip) {
        var k :| 0 <= k < |members[1..]| && members[1..][k].publicIp == ip && oks[1..][k];
        assert members[k + 1].publicIp == ip && oks[k + 1];
      }
      if Healthy(members, oks, ip) {
        var k :| 0 <= k < |members| && members[k].publicIp == ip && oks[k];
        if k > 0 { assert members[1..][k - 1].publicIp == ip && oks[1..][k - 1]; }
      }
    }
  }

  /** The desired list holds exactly the healthy addresses, once each, in increasing order. */
  lemma DesiredExact(members: seq<Member>, oks: seq<bool>)
    requires |members| == |oks|
    ensures forall ip :: ip in Desired(members, oks) <==> Healthy(members, oks, ip)
    ensures Distinct(Desired(members, oks)) && Ascending(Desired(members, oks), Self)
    ensures "" !in Desired(members, oks)
    ensures |Desired(members, oks)| <= |members|
  {
    var xs := Reachable(members, oks);
    DedupIsDistinct(xs);
    SortSorts(Dedup(xs), Self);
    SameElements(Sort(Dedup(xs), Self), Dedup(xs));
    forall ip ensures ip in Desired(members, oks) <==> Healthy(members, oks, ip) {
      ReachableIsHealthy(members, oks, ip);
    }
    forall i, j | 0 <= i < j < |Desired(members, oks)| ensures Desired(members, oks)[i] != Desired(members, oks)[j] {
      LessIrreflexive(Desired(members, oks)[i]);
    }
    ReachableShort(members, oks);
    DedupShort(xs);
  }

  lemma {:induction false} ReachableShort(members: seq<Member>, oks: seq<bool>)
    requires |members| == |oks|
    ensures |Reachable(members, oks)| <= |members|
  {
    if members == [] {
    } else {
      ReachableShort(members[1..], oks[1..]);
    }
  }

  lemma {:induction false} DedupShort(xs: seq<Ip>)
    ensures |Dedup(xs)| <= |xs|
  {
    if xs == [] {
    } else {
      DedupShort(xs[..|xs| - 1]);
    }
  }

  /** Neither the order of the members nor repetitions among them matter. */
  lemma DesiredOrderIndependent(members: seq<Member>, oks: seq<bool>, members': seq<Member>, oks': seq<bool>)
    requires |members| == |oks| && |members'| == |oks'|
    requires forall ip :: Healthy(members, oks, ip) <==> Healthy(members', oks', ip)
    ensures Desired(members, oks) == Desired(members', oks')
  {
    DesiredExact(members, oks);
    DesiredExact(members', oks');
    AscendingUnique(Desired(members, oks), Desired(members', oks'), Self);
  }

  // --- Choosing the zone --------------------------------------------------------

  /** `find(z => z.name === zoneName)`. */
  function FindZone(rows: seq<ZoneRow>, name: string): Option<string> {
    if rows == [] then None
    else if rows[0].name == name then Some(rows[0].id)
    else FindZone(rows[1..], name)
  }

  /** The zone to edit: the first one of that name, else the first one at all; an empty id counts as none. */
  function PickZone(rows: seq<ZoneRow>, name: string): Option<string> {
    var id := match FindZone(rows, name)
              case Some(id) => id
              case None => if rows != [] then rows[0].id else "";
    if id == "" then None else Some(id)
  }

  /** Without rows there is no zone; with rows there is one unless the chosen row has an empty id. */
  lemma {:induction false} PickZoneFinds(rows: seq<ZoneRow>, name: string)
    ensures rows == [] ==> PickZone(rows, name) == None
    ensures PickZone(rows, name).Some? ==>
              exists r :: r in rows && r.id == PickZone(rows, name).value && r.id != ""
                          && (r.name == name || (r == rows[0] && forall x :: x in rows ==> x.name != name))
  {
    if k: nat :| k < |rows| && rows[k].name == name && forall i :: 0 <= i < k ==> rows[i].name != name {
      PickZonePrefersTheName(rows, name, k);
    }
    NamedOrNot(rows, name);
    if rows != [] && forall x :: x in rows ==> x.name != name {
      PickZonePrefersTheName(rows, name, |rows| - 1);
      assert rows[|rows| - 1] in rows;
    }
  }

  lemma {:induction false} NamedOrNot(rows: seq<ZoneRow>, name: string)
    ensures (forall x :: x in rows ==> x.name != name)
            || exists k: nat :: k < |rows| && rows[k].name == name && forall i :: 0 <= i < k ==> rows[i].name != name
  {
    if rows == [] {
    } else {
      var front := rows[..|rows| - 1];
      NamedOrNot(front, name);
      if k: nat :| k < |front| && front[k].name == name && forall i :: 0 <= i < k ==> front[i].name != name {
        assert rows[k].name == name && forall i :: 0 <= i < k ==> rows[i] == front[i];
      } else if rows[|rows| - 1].name == name {
        assert forall i :: 0 <= i < |front| ==> rows[i] == front[i] && rows[i] in front;
        assert rows[|rows| - 1].name == name;
      }
    }
  }

  /** A zone is picked by exact name whenever one exists, even behind others, and the first row serves only
      otherwise. */
  lemma {:induction false} PickZonePrefersTheName(rows: seq<ZoneRow>, name: string, k: nat)
    requires k < |rows|
    requires forall i :: 0 <= i < k ==> rows[i].name != name
    ensures rows[k].name == name ==> PickZone(rows, name) == if rows[k].id == "" then None else Some(rows[k].id)
    ensures k == |rows| - 1 && rows[k].name != name ==>
              PickZone(rows, name) == if rows[0].id == "" then None else Some(rows[0].id)
  {
    FindZoneSkips(rows, name, k);
  }

  lemma {:induction false} FindZoneSkips(rows: seq<ZoneRow>, name: string, k: nat)
    requires k < |rows|
    requires forall i :: 0 <= i < k ==> rows[i].name != name
    ensures FindZone(rows, name) == FindZone(rows[k..], name)
  {
    if k == 0 {
    } else {
      FindZoneSkips(rows[1..], name, k - 1);
      assert rows[1..][k - 1..] == rows[k..];
    }
  }
}
