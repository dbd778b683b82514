/** The controller as the program runs it: a process with its `sessionId` variable, a Consul agent and the
    provider's API as objects, and `tick` and `reconcile` as methods (apps/dokploy/lb-controller.ts).
    Each method is tied to the step system: a tick that no other step interrupts is one run of it. */
module Controller {
  import opened Ordering
  import opened Dns
  import opened Reconcile
  import opened Cluster
  import opened LeaderSafety

  /** Everything the outside answers during one tick; `writes(k)` is how the write of loop turn `k` ends. */
  datatype Script = Script(create: Reply, renew: Reply, acquire: Reply, cfg: Option<LbConfig>, oks: seq<bool>,
                           rows: Option<seq<ZoneRow>>, page: Option<seq<Record>>, writes: nat -> Outcome)

  // --- What a tick should do ----------------------------------------------------

  /** The turn number of a control point inside the loops. */
  function TurnOf(r: Recon): nat {
    match r
    case Adding(_, _, i) => i
    case Deleting(d, _, j) => |d| + 1 + j
    case _ => 0
  }

  /** The event by which tick `t` goes on when the outside answers by the script. */
  function Answer(sc: Script, s: State, t: nat): Event
    requires t < |s.ticks|
  {
    match s.ticks[t].pc
    case Creating => Created(t, sc.create)
    case Renewing(_) => Renewed(t, sc.renew)
    case Acquiring(_) => Acquired(t, sc.acquire)
    case ReadingConfig => ConfigRead(t, sc.cfg)
    case Probing(_) => Probed(t, sc.oks)
    case LookingUp(_, _) => ZonesRead(t, sc.rows)
    case Reconciling(r) => if r.Listing? then RecordsRead(t, sc.page) else Turn(t, sc.writes(TurnOf(r)))
    case _ => Advance(0)
  }

  /** A run from `s` that starts one tick of `p` and then lets only this tick go on, answered by the script. */
  ghost predicate Driven(s: State, ss: seq<State>, es: seq<Event>, p: Pid, sc: Script) {
    && Run(ss, es) && ss[0] == s && es != [] && es[0] == Start(p)
    && forall k :: 1 <= k < |es| ==> |s.ticks| < |ss[k].ticks| && es[k] == Answer(sc, ss[k], |s.ticks|)
  }

  lemma Drive(s: State, ss: seq<State>, es: seq<Event>, p: Pid, sc: Script, l: State)
    returns (ss': seq<State>, es': seq<Event>)
    requires Driven(s, ss, es, p, sc) && |s.ticks| < |LastOf(ss).ticks|
    requires var e := Answer(sc, LastOf(ss), |s.ticks|); Enabled(LastOf(ss), e) && l == Next(LastOf(ss), e)
    ensures Driven(s, ss', es', p, sc) && LastOf(ss') == l
  {
    var e := Answer(sc, LastOf(ss), |s.ticks|);
    ss' := Extend(ss, es, e);
    es' := es + [e];
    forall k | 1 <= k < |es'| ensures |s.ticks| < |ss'[k].ticks| && es'[k] == Answer(sc, ss'[k], |s.ticks|) {
      assert ss'[k] == ss[k];
      if k < |es| { assert es'[k] == es[k]; }
    }
  }

  /** End point and zone of `reconcile`. */
  function ReconcileResult(cfg: LbConfig, sc: Script, z: Zone): (Pc, Zone)
    requires |sc.oks| == |cfg.members|
  {
    if !cfg.enabled || cfg.hostname == "" || cfg.cfToken == "" then (Returned, z)
    else if sc.rows.None? then (Threw, z)
    else if PickZone(sc.rows.value, cfg.zoneName).None? then (Returned, z)
    else if sc.page.None? then (Reconciling(Failed), z)
    else
      var d := Desired(cfg.members, sc.oks);
      var (z', r) := After(z, Adding(d, sc.page.value, 0), sc.writes, Budget(d, sc.page.value));
      (Reconciling(r), z')
  }

  lemma OneMore(z: Zone, r: Recon, env: nat -> Outcome, n: nat)
    ensures var (z', r') := After(z, r, env, n); After(z, r, env, n + 1) == Step(z', r', env(n))
  {
  }

  lemma NextAdd(z0: Zone, r0: Recon, env: nat -> Outcome, n: nat, z: Zone, d: seq<Ip>, page: seq<Record>, i: nat)
    requires After(z0, r0, env, n) == (z, Adding(d, page, i)) && i < |d|
    ensures After(z0, r0, env, n + 1)
            == if d[i] in Listed(page) then (z, Adding(d, page, i + 1))
               else (Settle(z, Add(d[i]), env(n)), if env(n).Replied? then Adding(d, page, i + 1) else Failed)
  {
  }

  lemma NextDelete(z0: Zone, r0: Recon, env: nat -> Outcome, n: nat, z: Zone, d: seq<Ip>, page: seq<Record>, j: nat)
    requires After(z0, r0, env, n) == (z, Deleting(d, page, j)) && j < |page|
    ensures After(z0, r0, env, n + 1)
            == if page[j].content in d then (z, Deleting(d, page, j + 1))
               else (Settle(z, Remove(page[j].id), env(n)),
                     if env(n).Replied? then Deleting(d, page, j + 1) else Failed)
  {
  }

  lemma {:induction false} Stationary(z: Zone, r: Recon, env: nat -> Outcome, n: nat, m: nat)
    requires n <= m && !Writing(After(z, r, env, n).1)
    ensures After(z, r, env, m) == After(z, r, env, n)
  {
    if n == m {
    } else {
      Stationary(z, r, env, n, m - 1);
    }
  }

  lemma DriveTurn(s: State, ss: seq<State>, es: seq<Event>, p: Pid, sc: Script, r: Recon)
    returns (ss': seq<State>, es': seq<Event>)
    requires Driven(s, ss, es, p, sc) && Writing(r)
    requires At(LastOf(ss), |s.ticks|) && LastOf(ss).ticks[|s.ticks|].pc == Reconciling(r)
    ensures Driven(s, ss', es', p, sc)
    ensures var t, l, l' := |s.ticks|, LastOf(ss), LastOf(ss');
            var (z, r') := Step(l.zone, r, sc.writes(TurnOf(r)));
            && l'.consul == l.consul && l'.procs == l.procs && |l'.ticks| == |l.ticks| && l'.zone == z
            && l'.ticks[t].pc == Reconciling(r') && l'.ticks[t].proc == l.ticks[t].proc
  {
    ss', es' := Drive(s, ss, es, p, sc, Next(LastOf(ss), Turn(|s.ticks|, sc.writes(TurnOf(r)))));
  }

  lemma {:induction false} DriveTurns(s: State, ss: seq<State>, es: seq<Event>, p: Pid, sc: Script, d: seq<Ip>,
                                      page: seq<Record>, n: nat)
    returns (ss': seq<State>, es': seq<Event>)
    requires Driven(s, ss, es, p, sc) && n <= Budget(d, page)
    requires var l := LastOf(ss);
             At(l, |s.ticks|) && l.ticks[|s.ticks|].pc == Reconciling(Adding(d, page, 0))
    ensures Driven(s, ss', es', p, sc)
    ensures var l, l' := LastOf(ss), LastOf(ss');
            && l'.consul == l.consul && l'.procs == l.procs && |l'.ticks| == |l.ticks|
            && l'.ticks[|s.ticks|].pc.Reconciling? && l'.ticks[|s.ticks|].proc == l.ticks[|s.ticks|].proc
            && (l'.zone, l'.ticks[|s.ticks|].pc.r) == After(l.zone, Adding(d, page, 0), sc.writes, n)
  {
    if n == 0 { return ss, es; }
    var t := |s.ticks|;
    ss', es' := DriveTurns(s, ss, es, p, sc, d, page, n - 1);
    var l := LastOf(ss');
    Progress(LastOf(ss).zone, page, d, sc.writes, n - 1);
    if Writing(l.ticks[t].pc.r) {
      assert TurnOf(l.ticks[t].pc.r) == n - 1;
      ss', es' := DriveTurn(s, ss', es', p, sc, l.ticks[t].pc.r);
    }
  }

  lemma DriveCreated(s: State, ss: seq<State>, es: seq<Event>, p: Pid, sc: Script)
    returns (ss': seq<State>, es': seq<Event>)
    requires Driven(s, ss, es, p, sc) && At(LastOf(ss), |s.ticks|) && LastOf(ss).ticks[|s.ticks|].pc.Creating?
    ensures Driven(s, ss', es', p, sc) && LastOf(ss') == CreateSession(LastOf(ss), |s.ticks|, sc.create)
  {
    ss', es' := Drive(s, ss, es, p, sc, Next(LastOf(ss), Created(|s.ticks|, sc.create)));
  }

  lemma DriveRenewed(s: State, ss: seq<State>, es: seq<Event>, p: Pid, sc: Script)
    returns (ss': seq<State>, es': seq<Event>)
    requires Driven(s, ss, es, p, sc) && At(LastOf(ss), |s.ticks|) && LastOf(ss).ticks[|s.ticks|].pc.Renewing?
    ensures Driven(s, ss', es', p, sc) && LastOf(ss') == RenewSession(LastOf(ss), |s.ticks|, sc.renew)
  {
    ss', es' := Drive(s, ss, es, p, sc, Next(LastOf(ss), Renewed(|s.ticks|, sc.renew)));
  }

  lemma DriveAcquired(s: State, ss: seq<State>, es: seq<Event>, p: Pid, sc: Script)
    returns (ss': seq<State>, es': seq<Event>)
    requires Driven(s, ss, es, p, sc) && At(LastOf(ss), |s.ticks|) && LastOf(ss).ticks[|s.ticks|].pc.Acquiring?
    ensures Driven(s, ss', es', p, sc) && LastOf(ss') == AcquireLock(LastOf(ss), |s.ticks|, sc.acquire)
  {
    ss', es' := Drive(s, ss, es, p, sc, Next(LastOf(ss), Acquired(|s.ticks|, sc.acquire)));
  }

  lemma DriveConfig(s: State, ss: seq<State>, es: seq<Event>, p: Pid, sc: Script)
    returns (ss': seq<State>, es': seq<Event>)
    requires Driven(s, ss, es, p, sc) && At(LastOf(ss), |s.ticks|) && LastOf(ss).ticks[|s.ticks|].pc.ReadingConfig?
    ensures Driven(s, ss', es', p, sc) && LastOf(ss') == SetPc(LastOf(ss), |s.ticks|, AfterConfig(sc.cfg))
  {
    ss', es' := Drive(s, ss, es, p, sc, Next(LastOf(ss), ConfigRead(|s.ticks|, sc.cfg)));
  }

  lemma DriveLookup(s: State, ss: seq<State>, es: seq<Event>, p: Pid, sc: Script, cfg: LbConfig)
    returns (ss': seq<State>, es': seq<Event>)
    requires Driven(s, ss, es, p, sc) && |sc.oks| == |cfg.members|
    requires At(LastOf(ss), |s.ticks|) && LastOf(ss).ticks[|s.ticks|].pc == Probing(cfg)
    ensures Driven(s, ss', es', p, sc)
    ensures var l, l' := LastOf(ss), LastOf(ss');
            && l' == SetPc(l, |s.ticks|, AfterZones(Desired(cfg.members, sc.oks), cfg.zoneName, sc.rows))
  {
    var t := |s.ticks|;
    ss', es' := Drive(s, ss, es, p, sc, Next(LastOf(ss), Probed(t, sc.oks)));
    ss', es' := Drive(s, ss', es', p, sc, Next(LastOf(ss'), ZonesRead(t, sc.rows)));
  }

  /** From the configuration on, the run goes to the end point and zone of `reconcile`. */
  lemma DriveReconcile(s: State, ss: seq<State>, es: seq<Event>, p: Pid, sc: Script, cfg: LbConfig)
    returns (ss': seq<State>, es': seq<Event>)
    requires Driven(s, ss, es, p, sc) && |sc.oks| == |cfg.members|
    requires var l := LastOf(ss);
             && At(l, |s.ticks|) && l.ticks[|s.ticks|].pc == AfterConfig(Some(cfg))
             && (sc.page.Some? ==> IsPage(l.zone, sc.page.value))
    ensures Driven(s, ss', es', p, sc)
    ensures var l, l' := LastOf(ss), LastOf(ss');
            && l'.consul == l.consul && l'.procs == l.procs && |l'.ticks| == |l.ticks|
            && (l'.ticks[|s.ticks|].pc, l'.zone) == ReconcileResult(cfg, sc, l.zone)
            && Ended(l'.ticks[|s.ticks|].pc)
  {
    var t := |s.ticks|;
    var d := Desired(cfg.members, sc.oks);
    ss', es' := ss, es;
    if LastOf(ss').ticks[t].pc.Returned? { return; }
    ss', es' := DriveLookup(s, ss', es', p, sc, cfg);
    if !LastOf(ss').ticks[t].pc.Reconciling? { return; }
    ss', es' := Drive(s, ss', es', p, sc, Next(LastOf(ss'), RecordsRead(t, sc.page)));
    if sc.page.None? { return; }
    var page := sc.page.value;
    Progress(LastOf(ss').zone, page, d, sc.writes, Budget(d, page));
    ss', es' := DriveTurns(s, ss', es', p, sc, d, page, Budget(d, page));
  }

  /** Reached from `s` in a tick of `p` that has not touched the zone. */
  ghost predicate InTick(s: State, l: State, p: Pid, sessionId: Option<Sid>, consul: Consul) {
    && |l.ticks| == |s.ticks| + 1 && l.ticks[|s.ticks|].proc == p
    && l.procs == s.procs[p := Proc(sessionId, true)] && l.consul == consul && l.zone == s.zone
  }

  // --- What a tick promises -----------------------------------------------------

  /** What a reconcile that listed `page` may have done to the zone: it deleted only listed records of addresses that
      are not healthy, added only healthy addresses that were not listed, by increasing address, edited nothing, kept
      every healthy address that was served, and did not empty the hostname if some address is healthy. */
  ghost predicate Edited(z0: Zone, z: Zone, members: seq<Member>, oks: seq<bool>, page: seq<Record>)
    requires |members| == |oks|
  {
    && (forall id :: id in z0.records && id !in z.records ==>
          exists r :: r in page && r.id == id && !Healthy(members, oks, r.content))
    && (forall id :: id in z.records && id in z0.records ==> z.records[id] == z0.records[id])
    && (forall id :: id in z.records && id !in z0.records ==>
          Healthy(members, oks, z.records[id]) && z.records[id] !in Listed(page))
    && AddedInOrder(z0, z)
    && (forall ip :: Healthy(members, oks, ip) && ip in Contents(z0) ==> ip in Contents(z))
    && (z0.records != map[] && (exists ip :: Healthy(members, oks, ip)) ==> z.records != map[])
  }

  lemma WithinIsEdited(z0: Zone, z: Zone, members: seq<Member>, oks: seq<bool>, page: seq<Record>)
    requires |members| == |oks| && ValidZone(z0)
    requires var d := Desired(members, oks); Within(z0, z, Doomed(page, d), Added(page, d)) && Unbroken(z0, d, z)
    requires AddedInOrder(z0, z)
    ensures Edited(z0, z, members, oks, page)
  {
    var d := Desired(members, oks);
    DesiredExact(members, oks);
    if ip :| Healthy(members, oks, ip) { assert ip in d; }
  }

  /** The addresses served are exactly the healthy ones. */
  ghost predicate ServesHealthy(z: Zone, members: seq<Member>, oks: seq<bool>)
    requires |members| == |oks|
  {
    forall ip :: ip in Contents(z) <==> Healthy(members, oks, ip)
  }

  lemma LoopsEdit(z0: Zone, members: seq<Member>, oks: seq<bool>, page: seq<Record>, env: nat -> Outcome)
    requires |members| == |oks| && ValidZone(z0) && IsPage(z0, page)
    ensures var d := Desired(members, oks);
            var (z, r) := After(z0, Adding(d, page, 0), env, Budget(d, page));
            && Edited(z0, z, members, oks, page) && (r.Finished? || r.Failed?)
            && ((forall k :: env(k) == Replied) ==> r.Finished?)
            && (r.Finished? && |z0.records| <= 100 ==> ServesHealthy(z, members, oks))
  {
    var d := Desired(members, oks);
    var (z, r) := After(z0, Adding(d, page, 0), env, Budget(d, page));
    AfterWithin(z0, page, d, env, Budget(d, page));
    LoopsUnbroken(z0, page, d, env, Budget(d, page));
    DesiredExact(members, oks);
    AddsInOrder(z0, page, d, env, Budget(d, page));
    WithinIsEdited(z0, z, members, oks, page);
    LoopsEnd(z0, page, d, env);
    if r.Finished? && |z0.records| <= 100 { FinishedServes(z0, page, members, oks, env); }
  }

  lemma LoopsUnbroken(z0: Zone, page: seq<Record>, d: seq<Ip>, env: nat -> Outcome, n: nat)
    requires ValidZone(z0) && IsPage(z0, page)
    ensures Unbroken(z0, d, After(z0, Adding(d, page, 0), env, n).0)
  {
    var z := After(z0, Adding(d, page, 0), env, n).0;
    SoloRun(z0, page, d, env, n);
    if Kept(z0, z) { KeptIsUnbroken(z0, d, z); } else { CoverIsUnbroken(z0, d, z); }
  }

  lemma LoopsEnd(z0: Zone, page: seq<Record>, d: seq<Ip>, env: nat -> Outcome)
    requires ValidZone(z0) && IsPage(z0, page)
    ensures var r := After(z0, Adding(d, page, 0), env, Budget(d, page)).1;
            (r.Finished? || r.Failed?) && ((forall k :: env(k) == Replied) ==> r.Finished?)
  {
    Terminates(z0, page, d, env);
    SoloRun(z0, page, d, env, Budget(d, page));
    if forall k :: env(k) == Replied { CleanRunExact(z0, page, d, env); }
  }

  lemma FinishedServes(z0: Zone, page: seq<Record>, members: seq<Member>, oks: seq<bool>, env: nat -> Outcome)
    requires |members| == |oks| && ValidZone(z0) && IsPage(z0, page) && |z0.records| <= 100
    requires var d := Desired(members, oks); After(z0, Adding(d, page, 0), env, Budget(d, page)).1.Finished?
    ensures var d := Desired(members, oks);
            ServesHealthy(After(z0, Adding(d, page, 0), env, Budget(d, page)).0, members, oks)
  {
    var d := Desired(members, oks);
    var z := After(z0, Adding(d, page, 0), env, Budget(d, page)).0;
    SoloRun(z0, page, d, env, Budget(d, page));
    SmallZoneIsListed(z0, page);
    forall id | id in z0.records ensures id in Ids(page) { assert Record(id, z0.records[id]) in page; }
    FinishedExact(z0, page, d, z);
    DesiredExact(members, oks);
  }

  lemma ResultMeans(cfg: LbConfig, sc: Script, z0: Zone)
    requires |sc.oks| == |cfg.members| && SwitchedOn(cfg)
    requires sc.rows.Some? && PickZone(sc.rows.value, cfg.zoneName).Some? && sc.page.Some?
    ensures ReconcileResult(cfg, sc, z0).0.Reconciling?
    ensures ReconcileResult(cfg, sc, z0).0.r.Finished? || ReconcileResult(cfg, sc, z0).0.r.Failed?
    ensures ValidZone(z0) && IsPage(z0, sc.page.value) ==>
              var (end, z) := ReconcileResult(cfg, sc, z0);
              && Edited(z0, z, cfg.members, sc.oks, sc.page.value)
              && ((forall k :: sc.writes(k) == Replied) ==> end == Reconciling(Finished))
              && (end == Reconciling(Finished) && |z0.records| <= 100 ==> ServesHealthy(z, cfg.members, sc.oks))
  {
    if ValidZone(z0) && IsPage(z0, sc.page.value) { LoopsEdit(z0, cfg.members, sc.oks, sc.page.value, sc.writes); }
    var d := Desired(cfg.members, sc.oks);
    Progress(z0, sc.page.value, d, sc.writes, Budget(d, sc.page.value));
  }

  /** A tick with these answers comes to hold a session that it has just renewed. */
  ghost predicate Renews(sessionId: Option<Sid>, consul: Consul, sc: Script) {
    sc.renew.Answered? && if sessionId.Some? then sessionId.value in consul.live else sc.create.Answered?
  }

  /** And it gets the lock: that session has it, or nobody does and the lock delay is over. */
  ghost predicate Leads(sessionId: Option<Sid>, consul: Consul, sc: Script) {
    && Renews(sessionId, consul, sc) && sc.acquire.Answered?
    && var id := if sessionId.Some? then sessionId else Some(consul.nextSid);
       consul.holder == id || (consul.holder.None? && consul.now >= consul.delayUntil)
  }

  // --- The objects --------------------------------------------------------------

  class DnsApi {
    var zone: Zone

    /** One write call; false when it raised an error. */
    method Send(w: Write, o: Outcome) returns (ok: bool)
      modifies this
      ensures ok == o.Replied? && zone == Settle(old(zone), w, o)
    {
      if o.Replied? || o.Lost? {
        match w
        case Add(ip) => zone := zone.(records := zone.records[zone.nextId := ip], nextId := zone.nextId + 1);
        case Remove(id) => zone := zone.(records := zone.records - {id});
      } else if o.Late? {
        zone := zone.(late := zone.late + multiset{w});
      }
      ok := o.Replied?;
    }
  }

  class Agent {
    var consul: Consul

    /** PUT /v1/session/create */
    method Create(reply: Reply) returns (id: Option<Sid>)
      modifies this
      ensures id == if reply.Answered? then Some(old(consul).nextSid) else None
      ensures consul == if reply.Unreached? then old(consul)
                        else old(consul).(live := old(consul).live[old(consul).nextSid := old(consul).now],
                                          nextSid := old(consul).nextSid + 1)
    {
      id := None;
      if reply != Unreached {
        var fresh' := consul.nextSid;
        consul := consul.(live := consul.live[fresh' := consul.now], nextSid := fresh' + 1);
        if reply.Answered? { id := Some(fresh'); }
      }
    }

    /** PUT /v1/session/renew/:id */
    method Renew(id: Sid, reply: Reply) returns (ok: bool)
      modifies this
      ensures ok == (id in old(consul).live && reply.Answered?)
      ensures consul == if id in old(consul).live && !reply.Unreached?
                        then old(consul).(live := old(consul).live[id := old(consul).now]) else old(consul)
    {
      ok := false;
      if id in consul.live && reply != Unreached {
        consul := consul.(live := consul.live[id := consul.now]);
        ok := reply.Answered?;
      }
    }

    /** PUT /v1/kv/:leader?acquire=:id */
    method Acquire(id: Option<Sid>, reply: Reply) returns (ok: bool)
      modifies this
      ensures ok == (CanAcquire(old(consul), id) && reply.Answered?)
      ensures consul == if CanAcquire(old(consul), id) && !reply.Unreached?
                        then old(consul).(holder := id) else old(consul)
    {
      ok := false;
      if CanAcquire(consul, id) && reply != Unreached {
        consul := consul.(holder := id);
        ok := reply.Answered?;
      }
    }
  }

  class Process {
    var sessionId: Option<Sid>

    /** The first loop: add every desired address that no listed record serves; false when a call raised an error. */
    method AddMissing(api: DnsApi, desired: seq<Ip>, existing: seq<Record>, sc: Script) returns (ok: bool)
      modifies api
      ensures var (z, r) := After(old(api.zone), Adding(desired, existing, 0), sc.writes, |desired| + 1);
              api.zone == z && r == if ok then Deleting(desired, existing, 0) else Failed
    {
      var existingIps := Listed(existing);
      ghost var z0, r0 := api.zone, Adding(desired, existing, 0);
      var i := 0;
      while i < |desired|
        invariant i <= |desired|
        invariant After(z0, r0, sc.writes, i) == (api.zone, Adding(desired, existing, i))
      {
        NextAdd(z0, r0, sc.writes, i, api.zone, desired, existing, i);
        if desired[i] !in existingIps {
          ok := api.Send(Add(desired[i]), sc.writes(i));
          if !ok {
            Stationary(z0, r0, sc.writes, i + 1, |desired| + 1);
            return;
          }
        }
        i := i + 1;
      }
      OneMore(z0, r0, sc.writes, i);
      ok := true;
    }

    /** The second loop: delete every listed record whose address is not desired; false when a call raised an error. */
    method DeleteUnwanted(api: DnsApi, desired: seq<Ip>, existing: seq<Record>, sc: Script, ghost z0: Zone)
      returns (ok: bool)
      requires After(z0, Adding(desired, existing, 0), sc.writes, |desired| + 1)
               == (api.zone, Deleting(desired, existing, 0))
      modifies api
      ensures var (z, r) := After(z0, Adding(desired, existing, 0), sc.writes, Budget(desired, existing));
              api.zone == z && r == if ok then Finished else Failed
    {
      ghost var r0 := Adding(desired, existing, 0);
      var j, turn := 0, |desired| + 1;
      while j < |existing|
        invariant j <= |existing| && turn == |desired| + 1 + j
        invariant After(z0, r0, sc.writes, turn) == (api.zone, Deleting(desired, existing, j))
      {
        NextDelete(z0, r0, sc.writes, turn, api.zone, desired, existing, j);
        if existing[j].content !in desired {
          ok := api.Send(Remove(existing[j].id), sc.writes(turn));
          if !ok {
            Stationary(z0, r0, sc.writes, turn + 1, Budget(desired, existing));
            return;
          }
        }
        j, turn := j + 1, turn + 1;
      }
      OneMore(z0, r0, sc.writes, turn);
      ok := true;
    }

    method Reconcile(api: DnsApi, cfg: LbConfig, sc: Script) returns (end: Pc)
      requires |sc.oks| == |cfg.members|
      modifies api
      ensures (end, api.zone) == ReconcileResult(cfg, sc, old(api.zone))
      ensures !SwitchedOn(cfg) ==> end == Returned
      ensures SwitchedOn(cfg) && sc.rows.None? ==> end == Threw
      ensures SwitchedOn(cfg) && sc.rows.Some? && PickZone(sc.rows.value, cfg.zoneName).None? ==> end == Returned
      ensures !end.Reconciling? ==> api.zone == old(api.zone)
      ensures SwitchedOn(cfg) && sc.rows.Some? && PickZone(sc.rows.value, cfg.zoneName).Some? ==>
                end == Reconciling(Finished) || end == Reconciling(Failed)
      ensures end.Reconciling? && sc.page.None? ==> end == Reconciling(Failed) && api.zone == old(api.zone)
      ensures end.Reconciling? && sc.page.Some? && ValidZone(old(api.zone)) && IsPage(old(api.zone), sc.page.value) ==>
                && Edited(old(api.zone), api.zone, cfg.members, sc.oks, sc.page.value)
                && ((forall k :: sc.writes(k) == Replied) ==> end == Reconciling(Finished))
                && (end == Reconciling(Finished) && |old(api.zone).records| <= 100 ==>
                      ServesHealthy(api.zone, cfg.members, sc.oks))
    {
      if !cfg.enabled || cfg.hostname == "" || cfg.cfToken == "" { return Returned; }
      var desired := Desired(cfg.members, sc.oks);
      if sc.rows.None? { return Threw; }
      if PickZone(sc.rows.value, cfg.zoneName).None? { return Returned; }
      if sc.page.None? { return Reconciling(Failed); }
      var existing := sc.page.value;
      ghost var z0 := api.zone;
      ResultMeans(cfg, sc, z0);
      var ok := AddMissing(api, desired, existing, sc);
      if !ok {
        Stationary(z0, Adding(desired, existing, 0), sc.writes, |desired| + 1, Budget(desired, existing));
        return Reconciling(Failed);
      }
      ok := DeleteUnwanted(api, desired, existing, sc, z0);
      return Reconciling(if ok then Finished else Failed);
    }

    /** `tick` up to the renewal: true if the process then holds a session that was just renewed. */
    method HoldSession(agent: Agent, sc: Script, ghost s: State, ghost p: Pid)
      returns (held: bool, ghost ss: seq<State>, ghost es: seq<Event>)
      requires p in s.procs && s.procs[p] == Proc(sessionId, true) && s.consul == agent.consul
      modifies this, agent
      ensures Driven(s, ss, es, p, sc) && InTick(s, LastOf(ss), p, sessionId, agent.consul)
      ensures var pc := LastOf(ss).ticks[|s.ticks|].pc;
              if held then pc == Acquiring(sessionId) else Ended(pc)
      ensures held <==> Renews(old(sessionId), old(agent.consul), sc)
      ensures held ==> sessionId == if old(sessionId).Some? then old(sessionId) else Some(old(agent.consul).nextSid)
      ensures held ==> sessionId.value in agent.consul.live && agent.consul.live[sessionId.value] == agent.consul.now
      ensures !held ==> sessionId == None
      ensures var c, c' := old(agent.consul), agent.consul;
              c'.holder == c.holder && c'.now == c.now && c'.delayUntil == c.delayUntil
    {
      ss, es := [s, Next(s, Start(p))], [Start(p)];
      held := false;
      if sessionId.None? {
        sessionId := agent.Create(sc.create);
        ss, es := DriveCreated(s, ss, es, p, sc);
      }
      if sessionId.None? { return; }
      held := agent.Renew(sessionId.value, sc.renew);
      ss, es := DriveRenewed(s, ss, es, p, sc);
      if !held { sessionId := None; }
    }

    /** The first half of `tick`: a session, its renewal, and the lock. */
    method Lead(agent: Agent, sc: Script, ghost s: State, ghost p: Pid)
      returns (isLeader: bool, ghost ss: seq<State>, ghost es: seq<Event>)
      requires p in s.procs && s.procs[p] == Proc(sessionId, true) && s.consul == agent.consul
      modifies this, agent
      ensures Driven(s, ss, es, p, sc) && InTick(s, LastOf(ss), p, sessionId, agent.consul)
      ensures var pc := LastOf(ss).ticks[|s.ticks|].pc;
              if isLeader then pc == ReadingConfig else Ended(pc)
      ensures isLeader <==> Leads(old(sessionId), old(agent.consul), sc)
      ensures isLeader ==> sessionId.Some? && agent.consul.holder == sessionId
      ensures sessionId.None? <==> !Renews(old(sessionId), old(agent.consul), sc)
    {
      var held;
      held, ss, es := HoldSession(agent, sc, s, p);
      if !held { return false, ss, es; }
      isLeader := agent.Acquire(sessionId, sc.acquire);
      ss, es := DriveAcquired(s, ss, es, p, sc);
    }

    /** `tick`. From any cluster state `s` that looks like these objects to process `p`, what this method does to the
        objects is what one uninterrupted tick of `p`, answered by the script, does in the step system. */
    method Tick(agent: Agent, api: DnsApi, sc: Script, ghost s: State, ghost p: Pid)
      returns (ghost ss: seq<State>, ghost es: seq<Event>)
      requires p in s.procs && s.procs[p] == Proc(sessionId, true) && s.consul == agent.consul && s.zone == api.zone
      requires sc.cfg.Some? ==> |sc.oks| == |sc.cfg.value.members|
      requires sc.page.Some? ==> IsPage(s.zone, sc.page.value)
      modifies this, agent, api
      ensures Driven(s, ss, es, p, sc)
      ensures var l := LastOf(ss);
              && |l.ticks| == |s.ticks| + 1 && Ended(l.ticks[|s.ticks|].pc)
              && l.procs == s.procs[p := Proc(sessionId, true)]
              && l.consul == agent.consul && l.zone == api.zone
      ensures Leads(old(sessionId), old(agent.consul), sc) ==> sessionId.Some? && agent.consul.holder == sessionId
      ensures sessionId.None? <==> !Renews(old(sessionId), old(agent.consul), sc)
      ensures !Leads(old(sessionId), old(agent.consul), sc) || sc.cfg.None? || !SwitchedOn(sc.cfg.value)
              || sc.rows.None? || PickZone(sc.rows.value, sc.cfg.value.zoneName).None? || sc.page.None? ==>
                api.zone == old(api.zone)
      ensures Leads(old(sessionId), old(agent.consul), sc) && sc.cfg.Some? && SwitchedOn(sc.cfg.value)
              && sc.rows.Some? && PickZone(sc.rows.value, sc.cfg.value.zoneName).Some? && sc.page.Some?
              && ValidZone(old(api.zone)) ==>
                && Edited(old(api.zone), api.zone, sc.cfg.value.members, sc.oks, sc.page.value)
                && ((forall k :: sc.writes(k) == Replied) && |old(api.zone).records| <= 100 ==>
                      ServesHealthy(api.zone, sc.cfg.value.members, sc.oks))
    {
      var isLeader;
      isLeader, ss, es := Lead(agent, sc, s, p);
      if !isLeader { return; }
      var cfg := sc.cfg;
      ss, es := DriveConfig(s, ss, es, p, sc);
      if cfg.Some? {
        var end := Reconcile(api, cfg.value, sc);
        ss, es := DriveReconcile(s, ss, es, p, sc, cfg.value);
      }
    }
  }
}
