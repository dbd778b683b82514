/** The controller processes, the Consul session lock and the DNS zone as one step system
    (apps/dokploy/lb-controller.ts). Any number of processes run, any number of ticks of one process
    may be in flight, and every call may fail before or after it took effect.
    Code between two awaits runs without interruption and is one step. */
module Cluster {
  import opened Ordering
  import opened Dns
  import opened Reconcile

  type Sid = nat
  type Pid = nat

  const SESSION_TTL := 30
  const LOCK_DELAY := 5

  /** Seconds between two firings of a process's timer. */
  const INTERVAL := 30

  /** How a Consul call ends: performed and answered, never performed, or performed with the answer lost. */
  datatype Reply = Answered | Unreached | AnswerLost

  /** Consul's side: `live` maps each session to the time of its last renewal, `delayUntil` ends the lock delay. */
  datatype Consul = Consul(now: nat, live: map<Sid, nat>, nextSid: Sid, holder: Option<Sid>, delayUntil: nat)

  datatype Proc = Proc(sessionId: Option<Sid>, alive: bool)

  /** Where a tick waits. Crashed, Returned, Threw and a finished or failed reconcile are the ends. */
  datatype Pc =
    | Creating
    | Renewing(sid: Sid)
    | Acquiring(arg: Option<Sid>)
    | ReadingConfig
    | Probing(cfg: LbConfig)
    | LookingUp(desired: seq<Ip>, zoneName: string)
    | Reconciling(r: Recon)
    | Returned
    | Threw
    | Crashed

  /** A tick remembers, for stating properties, the session it renewed and the one it was granted the lock for. */
  datatype Tick = Tick(proc: Pid, pc: Pc, renewed: Option<Sid>, granted: Option<Sid>)

  /** `creators` remembers which process asked for each session. Ticks are numbered in starting order. */
  datatype State = State(consul: Consul, creators: map<Sid, Pid>, procs: map<Pid, Proc>, ticks: seq<Tick>, zone: Zone)

  datatype Event =
    | Advance(d: nat)
    | Expire(sid: Sid)
    | Destroy(sid: Sid)
    | Boot(p: Pid)
    | Crash(p: Pid)
    | Start(p: Pid)
    | Created(t: nat, reply: Reply)
    | Renewed(t: nat, reply: Reply)
    | Acquired(t: nat, reply: Reply)
    | ConfigRead(t: nat, cfg: Option<LbConfig>)
    | Probed(t: nat, oks: seq<bool>)
    | ZonesRead(t: nat, rows: Option<seq<ZoneRow>>)
    | RecordsRead(t: nat, page: Option<seq<Record>>)
    | Turn(t: nat, o: Outcome)
    | Delivered(w: Write)

  // --- Consul -------------------------------------------------------------------

  predicate CanAcquire(c: Consul, arg: Option<Sid>) {
    arg.Some? && arg.value in c.live && (c.holder == arg || (c.holder.None? && c.now >= c.delayUntil))
  }

  /** The session is gone; if it held the lock, the lock is free after the delay. */
  function Invalidate(c: Consul, sid: Sid): Consul {
    var c' := c.(live := c.live - {sid});
    if c.holder == Some(sid) then c'.(holder := None, delayUntil := c.now + LOCK_DELAY) else c'
  }

  // --- Steps --------------------------------------------------------------------

  predicate Ended(pc: Pc) {
    pc.Returned? || pc.Threw? || pc.Crashed? || (pc.Reconciling? && (pc.r.Finished? || pc.r.Failed?))
  }

  /** The tick got the lock and went on to read the configuration and reconcile. */
  predicate Entered(pc: Pc) { pc.ReadingConfig? || pc.Probing? || pc.LookingUp? || pc.Reconciling? }

  predicate At(s: State, t: nat) { t < |s.ticks| && s.ticks[t].proc in s.procs }

  ghost predicate Enabled(s: State, e: Event) {
    match e
    case Advance(_) => true
    case Expire(sid) => sid in s.consul.live && s.consul.now >= s.consul.live[sid] + SESSION_TTL
    case Destroy(sid) => sid in s.consul.live
    case Boot(p) => p !in s.procs
    case Crash(p) => p in s.procs && s.procs[p].alive
    case Start(p) => p in s.procs && s.procs[p].alive
    case Created(t, _) => At(s, t) && s.ticks[t].pc.Creating?
    case Renewed(t, _) => At(s, t) && s.ticks[t].pc.Renewing?
    case Acquired(t, _) => At(s, t) && s.ticks[t].pc.Acquiring?
    case ConfigRead(t, _) => At(s, t) && s.ticks[t].pc.ReadingConfig?
    case Probed(t, oks) => At(s, t) && s.ticks[t].pc.Probing? && |oks| == |s.ticks[t].pc.cfg.members|
    case ZonesRead(t, _) => At(s, t) && s.ticks[t].pc.LookingUp?
    case RecordsRead(t, page) =>
      At(s, t) && s.ticks[t].pc.Reconciling? && s.ticks[t].pc.r.Listing? && (page.Some? ==> IsPage(s.zone, page.value))
    case Turn(t, _) => At(s, t) && s.ticks[t].pc.Reconciling? && Writing(s.ticks[t].pc.r)
    case Delivered(w) => w in s.zone.late
  }

  function SetPc(s: State, t: nat, pc: Pc): State
    requires t < |s.ticks|
  {
    s.(ticks := s.ticks[t := s.ticks[t].(pc := pc)])
  }

  function SetSession(s: State, p: Pid, id: Option<Sid>): State
    requires p in s.procs
  {
    s.(procs := s.procs[p := s.procs[p].(sessionId := id)])
  }

  function CrashTick(p: Pid, k: Tick): Tick { if k.proc == p && !Ended(k.pc) then k.(pc := Crashed) else k }

  /** `tick` up to its first await. */
  function StartTick(s: State, p: Pid): State
    requires p in s.procs
  {
    var pc := match s.procs[p].sessionId case None => Creating case Some(id) => Renewing(id);
    s.(ticks := s.ticks + [Tick(p, pc, None, None)])
  }

  /** `sessionId = await createSession()`, then on to the renewal, or return without a session. */
  function CreateSession(s: State, t: nat, reply: Reply): State
    requires At(s, t)
  {
    var id := s.consul.nextSid;
    var p := s.ticks[t].proc;
    var s1 := if reply.Unreached? then s
              else s.(consul := s.consul.(live := s.consul.live[id := s.consul.now], nextSid := id + 1),
                      creators := s.creators[id := p]);
    if reply.Answered? then SetPc(SetSession(s1, p, Some(id)), t, Renewing(id))
    else SetPc(SetSession(s1, p, None), t, Returned)
  }

  /** The renewal ends; the lock is then requested for what `sessionId` holds at that moment. */
  function RenewSession(s: State, t: nat, reply: Reply): State
    requires At(s, t) && s.ticks[t].pc.Renewing?
  {
    var id := s.ticks[t].pc.sid;
    var p := s.ticks[t].proc;
    var s1 := if id in s.consul.live && !reply.Unreached?
              then s.(consul := s.consul.(live := s.consul.live[id := s.consul.now])) else s;
    if id in s.consul.live && reply.Answered?
    then s1.(ticks := s1.ticks[t := s1.ticks[t].(pc := Acquiring(s.procs[p].sessionId), renewed := Some(id))])
    else SetPc(SetSession(s1, p, None), t, Returned)
  }

  function AcquireLock(s: State, t: nat, reply: Reply): State
    requires At(s, t) && s.ticks[t].pc.Acquiring?
  {
    var arg := s.ticks[t].pc.arg;
    var can := CanAcquire(s.consul, arg);
    var s1 := if can && !reply.Unreached? then s.(consul := s.consul.(holder := arg)) else s;
    if can && reply.Answered?
    then s1.(ticks := s1.ticks[t := s1.ticks[t].(pc := ReadingConfig, granted := arg)])
    else SetPc(s1, t, Returned)
  }

  function AfterConfig(cfg: Option<LbConfig>): Pc {
    match cfg
    case None => Returned
    case Some(c) => if !c.enabled || c.hostname == "" || c.cfToken == "" then Returned else Probing(c)
  }

  function AfterZones(desired: seq<Ip>, zoneName: string, rows: Option<seq<ZoneRow>>): Pc {
    match rows
    case None => Threw
    case Some(rs) => if PickZone(rs, zoneName).None? then Returned else Reconciling(Listing(desired))
  }

  function AfterList(desired: seq<Ip>, page: Option<seq<Record>>): Pc {
    match page
    case None => Reconciling(Failed)
    case Some(rs) => Reconciling(Adding(desired, rs, 0))
  }

  function Next(s: State, e: Event): (s': State)
    requires Enabled(s, e)
  {
    match e
    case Advance(d) => s.(consul := s.consul.(now := s.consul.now + d))
    case Expire(sid) => s.(consul := Invalidate(s.consul, sid))
    case Destroy(sid) => s.(consul := Invalidate(s.consul, sid))
    case Boot(p) => s.(procs := s.procs[p := Proc(None, true)])
    case Crash(p) =>
      s.(procs := s.procs[p := s.procs[p].(alive := false)],
         ticks := seq(|s.ticks|, i requires 0 <= i < |s.ticks| => CrashTick(p, s.ticks[i])))
    case Start(p) => StartTick(s, p)
    case Created(t, reply) => CreateSession(s, t, reply)
    case Renewed(t, reply) => RenewSession(s, t, reply)
    case Acquired(t, reply) => AcquireLock(s, t, reply)
    case ConfigRead(t, cfg) => SetPc(s, t, AfterConfig(cfg))
    case Probed(t, oks) => SetPc(s, t, LookingUp(Desired(s.ticks[t].pc.cfg.members, oks), s.ticks[t].pc.cfg.zoneName))
    case ZonesRead(t, rows) => SetPc(s, t, AfterZones(s.ticks[t].pc.desired, s.ticks[t].pc.zoneName, rows))
    case RecordsRead(t, page) => SetPc(s, t, AfterList(s.ticks[t].pc.r.desired, page))
    case Turn(t, o) =>
      var (z, r) := Step(s.zone, s.ticks[t].pc.r, o);
      SetPc(s, t, Reconciling(r)).(zone := z)
    case Delivered(w) => s.(zone := Deliver(s.zone, w))
  }

  /** `ss` are the states and `es` the events of a run. */
  ghost predicate Run(ss: seq<State>, es: seq<Event>) {
    && |ss| == |es| + 1
    && forall k :: 0 <= k < |es| ==> Enabled(ss[k], es[k]) && ss[k + 1] == Next(ss[k], es[k])
  }

  /** Tick `t` is the first of its process. */
  ghost predicate FirstTick(s: State, t: nat) {
    t < |s.ticks| && forall u :: 0 <= u < t ==> s.ticks[u].proc != s.ticks[t].proc
  }

  /** The timer's rule: a process starts its second tick only when its first has ended, and between any two of its
      starts there is at least an interval. */
  ghost predicate TimerKept(ss: seq<State>, es: seq<Event>)
    requires |ss| == |es| + 1
  {
    forall j, k :: 0 <= j < k < |es| && es[j].Start? && es[k] == es[j] ==>
      && ss[j].consul.now + INTERVAL <= ss[k].consul.now
      && forall t: nat :: FirstTick(ss[k], t) && ss[k].ticks[t].proc == es[k].p ==> Ended(ss[k].ticks[t].pc)
  }

  /** Before any process runs. The hostname may already have records. */
  ghost predicate Init(s: State) {
    && s.consul.live == map[] && s.consul.nextSid == 0 && s.consul.holder == None && s.consul.delayUntil == 0
    && s.creators == map[] && s.procs == map[] && s.ticks == []
    && ValidZone(s.zone) && s.zone.late == multiset{}
  }

  // --- The invariant ------------------------------------------------------------

  ghost predicate ConsulOk(s: State) {
    && (s.consul.holder.Some? ==> s.consul.holder.value in s.consul.live)
    && (forall x :: x in s.consul.live ==> x in s.creators && s.consul.live[x] <= s.consul.now)
    && (forall x: Sid :: x in s.creators <==> x < s.consul.nextSid)
    && s.consul.delayUntil <= s.consul.now + LOCK_DELAY
  }

  ghost predicate CreatedBy(s: State, id: Option<Sid>, p: Pid) {
    id.Some? ==> id.value in s.creators && s.creators[id.value] == p
  }

  ghost predicate TickOk(s: State, k: Tick) {
    && k.proc in s.procs
    && (!s.procs[k.proc].alive ==> Ended(k.pc))
    && (k.pc.Renewing? ==> CreatedBy(s, Some(k.pc.sid), k.proc))
    && (k.pc.Acquiring? ==> CreatedBy(s, k.pc.arg, k.proc))
    && CreatedBy(s, k.renewed, k.proc)
    && CreatedBy(s, k.granted, k.proc)
    && (k.granted.Some? ==> s.consul.holder == k.granted || k.granted.value !in s.consul.live)
    && (Entered(k.pc) ==> k.granted.Some?)
    && (k.pc.Reconciling? ==> ReconOk(s.zone, k.pc.r))
  }

  /** A process only holds ids of sessions it created. */
  ghost predicate SessionsOwn(s: State) { forall p :: p in s.procs ==> CreatedBy(s, s.procs[p].sessionId, p) }

  ghost predicate Inv(s: State) {
    && ConsulOk(s)
    && ValidZone(s.zone)
    && SessionsOwn(s)
    && (forall k :: k in s.ticks ==> TickOk(s, k))
  }

  /** What a step must leave alone for the facts about an uninvolved tick to stay true. */
  ghost predicate Frame(s: State, s': State) {
    && (forall x :: x in s.creators ==> x in s'.creators && s'.creators[x] == s.creators[x])
    && (forall x :: x in s.creators && x in s'.consul.live ==> x in s.consul.live)
    && (forall x :: s.consul.holder == Some(x) ==> s'.consul.holder == Some(x) || x !in s'.consul.live)
    && (forall p :: p in s.procs ==> p in s'.procs && s'.procs[p].alive == s.procs[p].alive)
    && ZoneEvolves(s.zone, s'.zone)
  }

  lemma TickFrame(s: State, s': State, k: Tick)
    requires TickOk(s, k) && Frame(s, s')
    ensures TickOk(s', k)
  {
    if k.pc.Reconciling? { ReconFrame(s.zone, s'.zone, k.pc.r); }
  }

  /** The tick that an event belongs to. */
  function Owner(e: Event): Option<nat> {
    match e
    case Created(t, _) => Some(t)
    case Renewed(t, _) => Some(t)
    case Acquired(t, _) => Some(t)
    case ConfigRead(t, _) => Some(t)
    case Probed(t, _) => Some(t)
    case ZonesRead(t, _) => Some(t)
    case RecordsRead(t, _) => Some(t)
    case Turn(t, _) => Some(t)
    case _ => None
  }

  /** Only the owner's entry among the ticks changes, except that a crash ends the ticks of its process. */
  lemma OthersStand(s: State, e: Event, k: nat)
    requires Enabled(s, e) && k < |s.ticks| && Owner(e) != Some(k)
    ensures k < |Next(s, e).ticks|
    ensures Next(s, e).ticks[k] == if e.Crash? then CrashTick(e.p, s.ticks[k]) else s.ticks[k]
  {
    match e
    case Created(t, reply) => CreateOthers(s, t, reply, k);
    case Renewed(t, reply) => RenewOthers(s, t, reply, k);
    case Acquired(t, reply) => AcquireOthers(s, t, reply, k);
    case _ =>
  }

  lemma CreateOthers(s: State, t: nat, reply: Reply, k: nat)
    requires At(s, t) && k < |s.ticks| && k != t
    ensures |CreateSession(s, t, reply).ticks| == |s.ticks| && CreateSession(s, t, reply).ticks[k] == s.ticks[k]
  {
  }

  lemma RenewOthers(s: State, t: nat, reply: Reply, k: nat)
    requires At(s, t) && s.ticks[t].pc.Renewing? && k < |s.ticks| && k != t
    ensures |RenewSession(s, t, reply).ticks| == |s.ticks| && RenewSession(s, t, reply).ticks[k] == s.ticks[k]
  {
  }

  lemma AcquireOthers(s: State, t: nat, reply: Reply, k: nat)
    requires At(s, t) && s.ticks[t].pc.Acquiring? && k < |s.ticks| && k != t
    ensures |AcquireLock(s, t, reply).ticks| == |s.ticks| && AcquireLock(s, t, reply).ticks[k] == s.ticks[k]
  {
  }

  lemma InvalidateFrame(s: State, sid: Sid)
    requires ConsulOk(s)
    ensures var s' := s.(consul := Invalidate(s.consul, sid)); Frame(s, s') && ConsulOk(s')
  {
  }

  lemma CreateFrame(s: State, t: nat, reply: Reply)
    requires ConsulOk(s) && At(s, t)
    ensures Frame(s, CreateSession(s, t, reply)) && ConsulOk(CreateSession(s, t, reply))
  {
  }

  lemma RenewFrame(s: State, t: nat, reply: Reply)
    requires ConsulOk(s) && At(s, t) && s.ticks[t].pc.Renewing?
    ensures Frame(s, RenewSession(s, t, reply)) && ConsulOk(RenewSession(s, t, reply))
  {
  }

  lemma AcquireFrame(s: State, t: nat, reply: Reply)
    requires ConsulOk(s) && At(s, t) && s.ticks[t].pc.Acquiring?
    ensures Frame(s, AcquireLock(s, t, reply)) && ConsulOk(AcquireLock(s, t, reply))
  {
  }

  lemma ZoneFrame(s: State, s': State)
    requires ConsulOk(s) && ZoneEvolves(s.zone, s'.zone)
    requires s'.consul == s.consul && s'.creators == s.creators && s'.procs == s.procs
    ensures Frame(s, s') && ConsulOk(s')
  {
  }

  lemma TurnFrame(s: State, t: nat, o: Outcome)
    requires Inv(s) && Enabled(s, Turn(t, o))
    ensures Frame(s, Next(s, Turn(t, o))) && ConsulOk(Next(s, Turn(t, o))) && ValidZone(Next(s, Turn(t, o)).zone)
  {
    assert s.ticks[t] in s.ticks;
    TurnEvolves(s.zone, s.ticks[t].pc.r, o);
    ZoneFrame(s, Next(s, Turn(t, o)));
  }

  lemma DeliveredFrame(s: State, w: Write)
    requires Inv(s) && Enabled(s, Delivered(w))
    ensures Frame(s, Next(s, Delivered(w))) && ConsulOk(Next(s, Delivered(w))) && ValidZone(Next(s, Delivered(w)).zone)
  {
    ApplyEvolves(s.zone.(late := s.zone.late - multiset{w}), w);
    ZoneFrame(s, Next(s, Delivered(w)));
  }

  lemma EventFrame(s: State, e: Event)
    requires Inv(s) && Enabled(s, e) && !e.Crash?
    ensures Frame(s, Next(s, e)) && ConsulOk(Next(s, e)) && ValidZone(Next(s, e).zone)
  {
    var s' := Next(s, e);
    match e
    case Expire(sid) => InvalidateFrame(s, sid);
    case Destroy(sid) => InvalidateFrame(s, sid);
    case Created(t, reply) => CreateFrame(s, t, reply);
    case Renewed(t, reply) => RenewFrame(s, t, reply);
    case Acquired(t, reply) => AcquireFrame(s, t, reply);
    case Turn(t, o) => TurnFrame(s, t, o);
    case Delivered(w) => DeliveredFrame(s, w);
    case _ =>
  }

  lemma CreateOwnerOk(s: State, t: nat, reply: Reply)
    requires ConsulOk(s) && At(s, t) && TickOk(s, s.ticks[t]) && s.ticks[t].pc.Creating?
    ensures TickOk(CreateSession(s, t, reply), CreateSession(s, t, reply).ticks[t])
  {
    CreateFrame(s, t, reply);
    TickFrame(s, CreateSession(s, t, reply), s.ticks[t]);
  }

  lemma RenewOwnerOk(s: State, t: nat, reply: Reply)
    requires ConsulOk(s) && At(s, t) && TickOk(s, s.ticks[t]) && s.ticks[t].pc.Renewing?
    requires CreatedBy(s, s.procs[s.ticks[t].proc].sessionId, s.ticks[t].proc)
    ensures TickOk(RenewSession(s, t, reply), RenewSession(s, t, reply).ticks[t])
  {
    RenewFrame(s, t, reply);
    TickFrame(s, RenewSession(s, t, reply), s.ticks[t]);
  }

  lemma AcquireOwnerOk(s: State, t: nat, reply: Reply)
    requires ConsulOk(s) && At(s, t) && TickOk(s, s.ticks[t]) && s.ticks[t].pc.Acquiring?
    ensures TickOk(AcquireLock(s, t, reply), AcquireLock(s, t, reply).ticks[t])
  {
    AcquireFrame(s, t, reply);
    TickFrame(s, AcquireLock(s, t, reply), s.ticks[t]);
  }

  lemma OwnerOk(s: State, e: Event)
    requires Inv(s) && Enabled(s, e) && Owner(e).Some?
    ensures TickOk(Next(s, e), Next(s, e).ticks[Owner(e).value])
  {
    var t := Owner(e).value;
    assert TickOk(s, s.ticks[t]) by { assert s.ticks[t] in s.ticks; }
    EventFrame(s, e);
    TickFrame(s, Next(s, e), s.ticks[t]);
    match e
    case Created(_, reply) => CreateOwnerOk(s, t, reply);
    case Renewed(_, reply) => RenewOwnerOk(s, t, reply);
    case Acquired(_, reply) => AcquireOwnerOk(s, t, reply);
    case Turn(_, o) => TurnEvolves(s.zone, s.ticks[t].pc.r, o);
    case RecordsRead(_, page) => if page.Some? { ListKnown(s.zone, page.value); }
    case _ =>
  }

  lemma CreateSessionsOwn(s: State, t: nat, reply: Reply)
    requires ConsulOk(s) && SessionsOwn(s) && At(s, t) && s.ticks[t].proc in s.procs
    ensures SessionsOwn(CreateSession(s, t, reply))
  {
  }

  lemma RenewSessionsOwn(s: State, t: nat, reply: Reply)
    requires SessionsOwn(s) && At(s, t) && s.ticks[t].pc.Renewing? && s.ticks[t].proc in s.procs
    ensures SessionsOwn(RenewSession(s, t, reply))
  {
  }

  lemma SessionsOk(s: State, e: Event)
    requires Inv(s) && Enabled(s, e)
    ensures SessionsOwn(Next(s, e))
  {
    match e
    case Created(t, reply) => CreateSessionsOwn(s, t, reply);
    case Renewed(t, reply) => RenewSessionsOwn(s, t, reply);
    case _ =>
  }

  lemma TickStep(s: State, e: Event, k: nat)
    requires Inv(s) && Enabled(s, e) && k < |Next(s, e).ticks|
    ensures TickOk(Next(s, e), Next(s, e).ticks[k])
  {
    if Owner(e) == Some(k) {
      OwnerOk(s, e);
    } else if k < |s.ticks| {
      OthersStand(s, e, k);
      assert TickOk(s, s.ticks[k]) by { assert s.ticks[k] in s.ticks; }
      if !e.Crash? {
        EventFrame(s, e);
        TickFrame(s, Next(s, e), s.ticks[k]);
      }
    }
  }

  /** Every step keeps the invariant. */
  lemma InvStep(s: State, e: Event)
    requires Inv(s) && Enabled(s, e)
    ensures Inv(Next(s, e))
  {
    var s' := Next(s, e);
    SessionsOk(s, e);
    if !e.Crash? { EventFrame(s, e); }
    forall k | 0 <= k < |s'.ticks| ensures TickOk(s', s'.ticks[k]) { TickStep(s, e, k); }
  }

  lemma {:induction false} InvRun(ss: seq<State>, es: seq<Event>, k: nat)
    requires Run(ss, es) && Inv(ss[0]) && k < |ss|
    ensures Inv(ss[k])
  {
    if k == 0 {
    } else {
      InvRun(ss, es, k - 1);
      InvStep(ss[k - 1], es[k - 1]);
    }
  }

  lemma InitInv(s: State)
    requires Init(s)
    ensures Inv(s)
  {
  }
}
