/** Takeover: from every reachable state a bounded schedule hands the lock to a surviving process and
    makes the zone equal to what that process probes (apps/dokploy/lb-controller.ts:23, 43-56, 189-208). */
module Takeover {
  import opened Ordering
  import opened Dns
  import opened Reconcile
  import opened Cluster
  import opened LeaderSafety

  // --- Steps of one tick --------------------------------------------------------

  /** A run from `l` in which only ticks numbered from `first` on act, with a bound for its length. */
  ghost predicate Own(l: State, ss: seq<State>, es: seq<Event>, first: nat, length: nat) {
    && Run(ss, es) && ss[0] == l && |es| <= length
    && forall e :: e in es ==> Owner(e).Some? && Owner(e).value >= first
  }

  lemma NoStep(l: State, first: nat)
    ensures Own(l, [l], [], first, 0)
  {
  }

  lemma ThenOwn(l: State, ss: seq<State>, es: seq<Event>, first: nat, length: nat, e: Event)
    returns (ss': seq<State>, es': seq<Event>)
    requires Own(l, ss, es, first, length) && Inv(LastOf(ss)) && Enabled(LastOf(ss), e)
    requires Owner(e).Some? && Owner(e).value >= first
    ensures Own(l, ss', es', first, length + 1) && LastOf(ss') == Next(LastOf(ss), e) && Inv(LastOf(ss'))
  {
    ss' := Extend(ss, es, e);
    es' := es + [e];
    InvStep(LastOf(ss), e);
  }

  /** Process `p` leads: its latest tick has just been granted the lock for the session the process holds. */
  ghost predicate Leads(s: State, p: Pid) {
    && p in s.procs && s.ticks != [] && s.procs[p].alive
    && s.procs[p].sessionId.Some?
    && s.consul.holder == s.procs[p].sessionId
    && s.procs[p].sessionId.value in s.creators && s.creators[s.procs[p].sessionId.value] == p
    && var k := s.ticks[|s.ticks| - 1]; k.proc == p && k.granted == s.consul.holder
  }

  /** Its last tick is past the lock. */
  ghost predicate Granted(l: State, p: Pid) {
    Inv(l) && Leads(l, p) && l.ticks[|l.ticks| - 1].pc == ReadingConfig
  }

  ghost predicate Survives(l: State, p: Pid) { Inv(l) && p in l.procs && l.procs[p].alive }

  /** Consul can give the lock to `p`. */
  ghost predicate LockOpen(l: State, p: Pid)
    requires p in l.procs
  {
    || (l.consul.holder.None? && l.consul.now >= l.consul.delayUntil)
    || (l.consul.holder.Some? && l.consul.holder == l.procs[p].sessionId)
  }

  /** The session that `p` remembers, if any, is alive. */
  ghost predicate SessionLive(l: State, p: Pid)
    requires p in l.procs
  {
    l.procs[p].sessionId.Some? ==> l.procs[p].sessionId.value in l.consul.live
  }

  /** The last tick, which is `p`'s, has just started. */
  ghost predicate Started(l: State, p: Pid) {
    && Survives(l, p) && l.ticks != []
    && var k := l.ticks[|l.ticks| - 1];
       k.proc == p && k.pc == match l.procs[p].sessionId case None => Creating case Some(id) => Renewing(id)
  }

  /** From `l` to `l'` nobody got or lost the lock, and its holder was not renewed. */
  ghost predicate LockStands(l: State, l': State) {
    && l'.consul.holder == l.consul.holder && l'.consul.delayUntil == l.consul.delayUntil
    && (l.consul.holder.Some? ==>
          var h := l.consul.holder.value;
          h in l.consul.live ==> h in l'.consul.live && l'.consul.live[h] == l.consul.live[h])
  }

  /** `p` did not get the lock; it has a live session or none, and another may hold the lock. */
  ghost predicate Waits(l: State, l': State, p: Pid) {
    && Survives(l', p) && SessionLive(l', p) && LockStands(l, l')
    && (l'.consul.holder.Some? ==> l'.consul.holder != l'.procs[p].sessionId)
  }

  ghost predicate SameWorld(l: State, l': State) {
    l'.zone == l.zone && |l'.ticks| == |l.ticks| && l'.consul.now == l.consul.now && l'.procs.Keys == l.procs.Keys
  }

  /** A tick with a live session is renewed, and gets the lock if it is open. */
  lemma RenewAndAcquire(l: State, p: Pid) returns (ss: seq<State>, es: seq<Event>)
    requires Started(l, p) && l.procs[p].sessionId.Some? && SessionLive(l, p)
    ensures Own(l, ss, es, |l.ticks| - 1, 2) && SameWorld(l, LastOf(ss))
    ensures if LockOpen(l, p) then Granted(LastOf(ss), p) else Waits(l, LastOf(ss), p)
  {
    var t := |l.ticks| - 1;
    NoStep(l, t);
    ss, es := ThenOwn(l, [l], [], t, 0, Renewed(t, Answered));
    assert LastOf(ss).ticks[t].pc == Acquiring(l.procs[p].sessionId) && LastOf(ss).procs == l.procs;
    ss, es := ThenOwn(l, ss, es, t, 1, Acquired(t, Answered));
    assert CreatedBy(LastOf(ss), LastOf(ss).procs[p].sessionId, p);
  }

  lemma JoinOwn(l: State, ss: seq<State>, es: seq<Event>, ss': seq<State>, es': seq<Event>,
                first: nat, length: nat, length': nat)
    returns (all: seq<State>, both: seq<Event>)
    requires Own(l, ss, es, first, length) && Own(LastOf(ss), ss', es', first, length')
    ensures Own(l, all, both, first, length + length') && LastOf(all) == LastOf(ss')
  {
    all := Concat(ss, es, ss', es');
    both := es + es';
  }

  lemma Concat(ss: seq<State>, es: seq<Event>, ss': seq<State>, es': seq<Event>)
    returns (all: seq<State>)
    requires Run(ss, es) && Run(ss', es') && LastOf(ss) == ss'[0]
    ensures all == ss + ss'[1..] && Run(all, es + es') && all[0] == ss[0] && LastOf(all) == LastOf(ss')
  {
    all := ss + ss'[1..];
    var both := es + es';
    forall k | 0 <= k < |both| ensures Enabled(all[k], both[k]) && all[k + 1] == Next(all[k], both[k]) {
      if k >= |es| {
        assert all[k] == ss'[k - |es|] && all[k + 1] == ss'[k - |es| + 1];
      }
    }
  }

  lemma CreateFirst(l: State, p: Pid) returns (ss: seq<State>, es: seq<Event>)
    requires Started(l, p) && l.procs[p].sessionId.None?
    ensures Own(l, ss, es, |l.ticks| - 1, 1) && SameWorld(l, LastOf(ss)) && LockStands(l, LastOf(ss))
    ensures var l' := LastOf(ss);
            && Started(l', p) && l'.procs[p].sessionId.Some? && SessionLive(l', p)
            && (LockOpen(l', p) <==> LockOpen(l, p))
  {
    var t := |l.ticks| - 1;
    NoStep(l, t);
    ss, es := ThenOwn(l, [l], [], t, 0, Created(t, Answered));
  }

  lemma ForgetSession(l: State, p: Pid) returns (ss: seq<State>, es: seq<Event>)
    requires Started(l, p) && !SessionLive(l, p)
    ensures Own(l, ss, es, |l.ticks| - 1, 1) && SameWorld(l, LastOf(ss)) && Waits(l, LastOf(ss), p)
  {
    var t := |l.ticks| - 1;
    NoStep(l, t);
    ss, es := ThenOwn(l, [l], [], t, 0, Renewed(t, Answered));
  }

  /** A tick whose calls are all answered leads if its session is not dead and the lock is open. */
  lemma AnswerTick(l: State, p: Pid) returns (ss: seq<State>, es: seq<Event>)
    requires Started(l, p)
    ensures Own(l, ss, es, |l.ticks| - 1, 3) && SameWorld(l, LastOf(ss))
    ensures Granted(LastOf(ss), p) || Waits(l, LastOf(ss), p)
    ensures SessionLive(l, p) && LockOpen(l, p) ==> Granted(LastOf(ss), p)
  {
    if l.procs[p].sessionId.None? {
      var ss1, es1 := CreateFirst(l, p);
      var ss2, es2 := RenewAndAcquire(LastOf(ss1), p);
      ss, es := JoinOwn(l, ss1, es1, ss2, es2, |l.ticks| - 1, 1, 2);
    } else if SessionLive(l, p) {
      ss, es := RenewAndAcquire(l, p);
    } else {
      ss, es := ForgetSession(l, p);
    }
  }

  // --- The leader's reconcile ---------------------------------------------------

  /** A leader's step towards or in its reconcile leaves it leading. */
  lemma LeaderStep(l: State, p: Pid, e: Event)
    requires Leads(l, p) && Enabled(l, e) && Owner(e) == Some(|l.ticks| - 1)
    requires e.ConfigRead? || e.Probed? || e.ZonesRead? || e.RecordsRead? || e.Turn?
    ensures Leads(Next(l, e), p) && |Next(l, e).ticks| == |l.ticks| && Next(l, e).procs == l.procs
    ensures Next(l, e).consul == l.consul && (!e.Turn? ==> Next(l, e).zone == l.zone)
  {
  }

  /** The last tick of the leader `p` stands at `pc`. */
  ghost predicate LeaderAt(l: State, p: Pid, pc: Pc) {
    Inv(l) && Leads(l, p) && l.ticks[|l.ticks| - 1].pc == pc
  }

  ghost predicate SameElse(l: State, l': State) {
    l'.consul == l.consul && l'.procs == l.procs && |l'.ticks| == |l.ticks|
  }

  /** The leader reads the configuration and probes. */
  lemma ReadAndProbe(l: State, p: Pid, cfg: LbConfig, oks: seq<bool>) returns (ss: seq<State>, es: seq<Event>)
    requires LeaderAt(l, p, ReadingConfig)
    requires SwitchedOn(cfg) && |oks| == |cfg.members|
    ensures Own(l, ss, es, |l.ticks| - 1, 2) && SameElse(l, LastOf(ss)) && LastOf(ss).zone == l.zone
    ensures LeaderAt(LastOf(ss), p, LookingUp(Desired(cfg.members, oks), cfg.zoneName))
  {
    var t := |l.ticks| - 1;
    NoStep(l, t);
    LeaderStep(l, p, ConfigRead(t, Some(cfg)));
    ss, es := ThenOwn(l, [l], [], t, 0, ConfigRead(t, Some(cfg)));
    LeaderStep(LastOf(ss), p, Probed(t, oks));
    ss, es := ThenOwn(l, ss, es, t, 1, Probed(t, oks));
  }

  /** It finds the zone and lists the records. */
  lemma FindAndList(l: State, p: Pid, desired: seq<Ip>, zoneName: string, rows: seq<ZoneRow>, page: seq<Record>)
    returns (ss: seq<State>, es: seq<Event>)
    requires LeaderAt(l, p, LookingUp(desired, zoneName)) && PickZone(rows, zoneName).Some? && IsPage(l.zone, page)
    ensures Own(l, ss, es, |l.ticks| - 1, 2) && SameElse(l, LastOf(ss)) && LastOf(ss).zone == l.zone
    ensures LeaderAt(LastOf(ss), p, Reconciling(Adding(desired, page, 0)))
  {
    var t := |l.ticks| - 1;
    NoStep(l, t);
    LeaderStep(l, p, ZonesRead(t, Some(rows)));
    ss, es := ThenOwn(l, [l], [], t, 0, ZonesRead(t, Some(rows)));
    LeaderStep(LastOf(ss), p, RecordsRead(t, Some(page)));
    ss, es := ThenOwn(l, ss, es, t, 1, RecordsRead(t, Some(page)));
  }

  /** From the lock to the loops. */
  lemma ListAsLeader(l: State, p: Pid, cfg: LbConfig, oks: seq<bool>, rows: seq<ZoneRow>, page: seq<Record>)
    returns (ss: seq<State>, es: seq<Event>)
    requires Granted(l, p) && IsPage(l.zone, page) && PickZone(rows, cfg.zoneName).Some?
    requires SwitchedOn(cfg) && |oks| == |cfg.members|
    ensures Own(l, ss, es, |l.ticks| - 1, 4) && SameElse(l, LastOf(ss)) && LastOf(ss).zone == l.zone
    ensures LeaderAt(LastOf(ss), p, Reconciling(Adding(Desired(cfg.members, oks), page, 0)))
  {
    var ss1, es1 := ReadAndProbe(l, p, cfg, oks);
    var ss2, es2 := FindAndList(LastOf(ss1), p, Desired(cfg.members, oks), cfg.zoneName, rows, page);
    ss, es := JoinOwn(l, ss1, es1, ss2, es2, |l.ticks| - 1, 2, 2);
  }

  function Clean(k: nat): Outcome { Replied }

  /** One answered turn of the leader. */
  lemma OneTurn(l0: State, ss: seq<State>, es: seq<Event>, length: nat, p: Pid, r: Recon)
    returns (ss': seq<State>, es': seq<Event>)
    requires l0.ticks != [] && Own(l0, ss, es, |l0.ticks| - 1, length) && SameElse(l0, LastOf(ss))
    requires LeaderAt(LastOf(ss), p, Reconciling(r)) && Writing(r)
    ensures Own(l0, ss', es', |l0.ticks| - 1, length + 1) && SameElse(l0, LastOf(ss'))
    ensures var (z', r') := Step(LastOf(ss).zone, r, Replied);
            LastOf(ss').zone == z' && LeaderAt(LastOf(ss'), p, Reconciling(r'))
  {
    var e := Turn(|l0.ticks| - 1, Replied);
    LeaderStep(LastOf(ss), p, e);
    ss', es' := ThenOwn(l0, ss, es, |l0.ticks| - 1, length, e);
  }

  /** The leader runs its loops, every call answered. */
  lemma {:induction false} LeaderTurns(l: State, p: Pid, d: seq<Ip>, page: seq<Record>, n: nat)
    returns (ss: seq<State>, es: seq<Event>)
    requires LeaderAt(l, p, Reconciling(Adding(d, page, 0))) && n <= Budget(d, page)
    ensures Own(l, ss, es, |l.ticks| - 1, n) && SameElse(l, LastOf(ss))
    ensures var (z, r) := After(l.zone, Adding(d, page, 0), Clean, n);
            LastOf(ss).zone == z && LeaderAt(LastOf(ss), p, Reconciling(r))
  {
    if n == 0 {
      NoStep(l, |l.ticks| - 1);
      ss, es := [l], [];
    } else {
      ss, es := LeaderTurns(l, p, d, page, n - 1);
      CleanProgress(l.zone, page, d, Clean, n - 1);
      ss, es := OneTurn(l, ss, es, n - 1, p, After(l.zone, Adding(d, page, 0), Clean, n - 1).1);
    }
  }

  lemma CleanResult(z: Zone, page: seq<Record>, d: seq<Ip>)
    requires ValidZone(z) && IsPage(z, page) && |z.records| <= PAGE_SIZE
    ensures var (z', r) := After(z, Adding(d, page, 0), Clean, Budget(d, page));
            r == Finished && forall ip :: ip in Contents(z') <==> ip in d
  {
    CleanRunOnOnePage(z, page, d, Clean);
  }

  /** A leader whose calls are all answered leaves exactly what it probed. */
  lemma LeaderReconciles(l: State, p: Pid, cfg: LbConfig, oks: seq<bool>, rows: seq<ZoneRow>)
    returns (ss: seq<State>, es: seq<Event>)
    requires Granted(l, p) && |l.zone.records| <= PAGE_SIZE && PickZone(rows, cfg.zoneName).Some?
    requires SwitchedOn(cfg) && |oks| == |cfg.members|
    ensures Own(l, ss, es, |l.ticks| - 1, 6 + |cfg.members| + |l.zone.records|)
    ensures LeaderAt(LastOf(ss), p, Reconciling(Finished)) && SameElse(l, LastOf(ss))
    ensures forall ip :: ip in Contents(LastOf(ss).zone) <==> Healthy(cfg.members, oks, ip)
  {
    var d := Desired(cfg.members, oks);
    var page := SomePage(l.zone);
    var ss1, es1 := ListAsLeader(l, p, cfg, oks, rows, page);
    var ss2, es2 := LeaderTurns(LastOf(ss1), p, d, page, Budget(d, page));
    ss, es := JoinOwn(l, ss1, es1, ss2, es2, |l.ticks| - 1, 4, Budget(d, page));
    CleanResult(l.zone, page, d);
    DesiredExact(cfg.members, oks);
  }

  // --- The survivor's timer -----------------------------------------------------

  /** Number of ticks that process `p` starts. */
  function Starts(es: seq<Event>, p: Pid): nat {
    if es == [] then 0 else Starts(es[..|es| - 1], p) + if es[|es| - 1] == Start(p) then 1 else 0
  }

  /** The clock runs, sessions expire, and otherwise only ticks of `p` numbered from `first` on act. */
  ghost predicate OnlyProcess(es: seq<Event>, p: Pid, first: nat) {
    forall e :: e in es ==> e.Advance? || e.Expire? || e == Start(p) || (Owner(e).Some? && Owner(e).value >= first)
  }

  /** The timer of process `p`: its next firing is at `due`, and then it fires once every interval. */
  datatype Timer = Timer(p: Pid, due: nat)

  /** When the timer fires after `starts` firings. */
  function Due(timer: Timer, starts: nat): nat { timer.due + INTERVAL * starts }

  /** Ticks of the timer's process start exactly at its firings, and no firing is passed over. */
  ghost predicate OnTimer(ss: seq<State>, es: seq<Event>, timer: Timer)
    requires |ss| == |es| + 1
    decreases |es|
  {
    if es == [] then ss[0].consul.now <= timer.due
    else
      var front, k := es[..|es| - 1], |es| - 1;
      && OnTimer(ss[..|es|], front, timer)
      && ss[k + 1].consul.now <= Due(timer, Starts(es, timer.p))
      && (es[k] == Start(timer.p) ==> ss[k].consul.now == Due(timer, Starts(front, timer.p)))
  }

  /** A run `ss`, `es` from `s` in which only the timer's process and time act, with its number of starts and a bound
      for its length. */
  ghost predicate Schedule(s: State, ss: seq<State>, es: seq<Event>, timer: Timer, starts: nat, length: nat) {
    && Run(ss, es) && ss[0] == s
    && OnlyProcess(es, timer.p, |s.ticks|) && OnTimer(ss, es, timer)
    && Starts(es, timer.p) == starts && |es| <= length
  }

  lemma ClockStands(s: State, e: Event)
    requires Enabled(s, e)
    ensures Next(s, e).consul.now == s.consul.now + if e.Advance? then e.d else 0
  {
  }

  lemma WithinDue(s: State, ss: seq<State>, es: seq<Event>, timer: Timer, starts: nat, length: nat)
    requires Schedule(s, ss, es, timer, starts, length)
    ensures LastOf(ss).consul.now <= Due(timer, starts)
  {
  }

  lemma Then(s: State, ss: seq<State>, es: seq<Event>, timer: Timer, starts: nat, length: nat, e: Event)
    returns (ss': seq<State>, es': seq<Event>)
    requires Schedule(s, ss, es, timer, starts, length) && Enabled(LastOf(ss), e)
    requires e.Advance? || e.Expire? || e == Start(timer.p) || (Owner(e).Some? && Owner(e).value >= |s.ticks|)
    requires e.Advance? ==> LastOf(ss).consul.now + e.d <= Due(timer, starts)
    requires e.Start? ==> LastOf(ss).consul.now == Due(timer, starts)
    ensures Schedule(s, ss', es', timer, starts + if e.Start? then 1 else 0, length + 1)
    ensures LastOf(ss') == Next(LastOf(ss), e)
  {
    ss' := Extend(ss, es, e);
    es' := es + [e];
    assert es'[..|es'| - 1] == es && ss'[..|es'|] == ss;
    ClockStands(LastOf(ss), e);
    WithinDue(s, ss, es, timer, starts, length);
  }

  lemma OwnTail(l: State, ss: seq<State>, es: seq<Event>, first: nat, length: nat)
    requires Own(l, ss, es, first, length) && es != []
    ensures Enabled(l, es[0]) && ss[1] == Next(l, es[0]) && Owner(es[0]).Some? && Owner(es[0]).value >= first
    ensures Own(ss[1], ss[1..], es[1..], first, length - 1) && LastOf(ss[1..]) == LastOf(ss)
  {
    assert ss[0 + 1] == Next(ss[0], es[0]) && es[0] in es;
    forall k | 0 <= k < |es[1..]|
      ensures Enabled(ss[1..][k], es[1..][k]) && ss[1..][k + 1] == Next(ss[1..][k], es[1..][k])
    {
      assert ss[k + 1 + 1] == Next(ss[k + 1], es[k + 1]);
    }
  }

  /** Steps of a tick that started in the schedule. */
  lemma {:induction false} ThenAll(s: State, ss: seq<State>, es: seq<Event>, timer: Timer, starts: nat, length: nat,
                                   ss': seq<State>, es': seq<Event>, length': nat)
    returns (all: seq<State>, both: seq<Event>)
    requires Schedule(s, ss, es, timer, starts, length) && Own(LastOf(ss), ss', es', |s.ticks|, length')
    ensures Schedule(s, all, both, timer, starts, length + length') && LastOf(all) == LastOf(ss')
    decreases |es'|
  {
    if es' == [] {
      all, both := ss, es;
    } else {
      OwnTail(LastOf(ss), ss', es', |s.ticks|, length');
      all, both := Then(s, ss, es, timer, starts, length, es'[0]);
      all, both := ThenAll(s, all, both, timer, starts, length + 1, ss'[1..], es'[1..], length' - 1);
    }
  }

  /** The tick at the timer's firing, every call answered. */
  lemma TickWhenDue(s: State, ss: seq<State>, es: seq<Event>, timer: Timer, starts: nat, length: nat)
    returns (ss': seq<State>, es': seq<Event>)
    requires Schedule(s, ss, es, timer, starts, length) && |LastOf(ss).ticks| >= |s.ticks|
    requires Survives(LastOf(ss), timer.p) && LastOf(ss).consul.now == Due(timer, starts)
    ensures Schedule(s, ss', es', timer, starts + 1, length + 4)
    ensures var l, l' := LastOf(ss), LastOf(ss');
            && (Granted(l', timer.p) || Waits(l, l', timer.p))
            && l'.zone == l.zone && |l'.ticks| == |l.ticks| + 1 && l'.consul.now == l.consul.now
            && (SessionLive(l, timer.p) && LockOpen(l, timer.p) ==> Granted(l', timer.p))
  {
    var l := LastOf(ss);
    ss', es' := Then(s, ss, es, timer, starts, length, Start(timer.p));
    InvStep(l, Start(timer.p));
    assert Started(LastOf(ss'), timer.p) && LockStands(l, LastOf(ss'));
    var tick, events := AnswerTick(LastOf(ss'), timer.p);
    ss', es' := ThenAll(s, ss', es', timer, starts + 1, length + 1, tick, events, 3);
  }

  /** Time passes until the timer fires. */
  lemma UntilDue(s: State, ss: seq<State>, es: seq<Event>, timer: Timer, starts: nat, length: nat)
    returns (ss': seq<State>, es': seq<Event>)
    requires Schedule(s, ss, es, timer, starts, length) && Survives(LastOf(ss), timer.p)
    ensures Schedule(s, ss', es', timer, starts, length + 1) && Survives(LastOf(ss'), timer.p)
    ensures var l := LastOf(ss); LastOf(ss') == l.(consul := l.consul.(now := Due(timer, starts)))
    ensures LastOf(ss).consul.now <= Due(timer, starts)
  {
    var l := LastOf(ss);
    WithinDue(s, ss, es, timer, starts, length);
    var e := Advance(Due(timer, starts) - l.consul.now);
    ss', es' := Then(s, ss, es, timer, starts, length, e);
    InvStep(l, e);
  }

  /** Another process's session that was last renewed a lifetime ago ends. */
  lemma ExpireHolder(s: State, ss: seq<State>, es: seq<Event>, timer: Timer, starts: nat, length: nat)
    returns (ss': seq<State>, es': seq<Event>)
    requires Schedule(s, ss, es, timer, starts, length)
    requires var l := LastOf(ss);
             && Survives(l, timer.p) && SessionLive(l, timer.p)
             && (l.consul.holder.Some? ==>
                   && l.consul.holder != l.procs[timer.p].sessionId
                   && l.consul.now >= l.consul.live[l.consul.holder.value] + SESSION_TTL)
    ensures Schedule(s, ss', es', timer, starts, length + 1)
    ensures var l, l' := LastOf(ss), LastOf(ss');
            && Survives(l', timer.p) && SessionLive(l', timer.p) && l'.consul.holder.None?
            && l'.consul.now == l.consul.now && l'.zone == l.zone && l'.ticks == l.ticks
  {
    var l := LastOf(ss);
    if l.consul.holder.None? {
      ss', es' := ss, es;
    } else {
      ss', es' := Then(s, ss, es, timer, starts, length, Expire(l.consul.holder.value));
      InvStep(l, Expire(l.consul.holder.value));
    }
  }

  /** Wherever `p`'s timer stands, `p` leads by its third firing, in sixteen steps: the first tick may only find out
      that its session is gone, or that another still holds the lock; by the second the old leader's session has
      expired; and by the third the lock delay is over. */
  lemma SurvivorLeads(s: State, timer: Timer) returns (ss: seq<State>, es: seq<Event>, starts: nat)
    requires Survives(s, timer.p) && s.consul.now <= timer.due <= s.consul.now + INTERVAL
    ensures Schedule(s, ss, es, timer, starts, 16) && 1 <= starts <= 3
    ensures var l := LastOf(ss);
            && Granted(l, timer.p) && l.zone == s.zone && |l.ticks| > |s.ticks|
            && l.consul.now == Due(timer, starts - 1)
  {
    assert Schedule(s, [s], [], timer, 0, 0);
    ss, es := UntilDue(s, [s], [], timer, 0, 0);
    ss, es := TickWhenDue(s, ss, es, timer, 0, 1);
    starts := 1;
    if !Granted(LastOf(ss), timer.p) {
      ss, es, starts := LaterTicks(s, ss, es, timer);
    }
  }

  /** The second and third tick. */
  lemma LaterTicks(s: State, ss: seq<State>, es: seq<Event>, timer: Timer)
    returns (ss': seq<State>, es': seq<Event>, starts: nat)
    requires Schedule(s, ss, es, timer, 1, 5)
    requires var l := LastOf(ss);
             && Survives(l, timer.p) && SessionLive(l, timer.p) && l.zone == s.zone && |l.ticks| > |s.ticks|
             && (l.consul.holder.Some? ==>
                   && l.consul.holder != l.procs[timer.p].sessionId
                   && l.consul.live[l.consul.holder.value] <= timer.due)
    ensures Schedule(s, ss', es', timer, starts, 16) && 2 <= starts <= 3
    ensures var l := LastOf(ss');
            && Granted(l, timer.p) && l.zone == s.zone && |l.ticks| > |s.ticks|
            && l.consul.now == Due(timer, starts - 1)
  {
    ss', es' := UntilDue(s, ss, es, timer, 1, 5);
    ss', es' := ExpireHolder(s, ss', es', timer, 1, 6);
    var l := LastOf(ss');
    ss', es' := TickWhenDue(s, ss', es', timer, 1, 7);
    starts := 2;
    if !Granted(LastOf(ss'), timer.p) {
      assert LastOf(ss').consul.delayUntil == l.consul.delayUntil <= l.consul.now + LOCK_DELAY;
      ss', es' := UntilDue(s, ss', es', timer, 2, 11);
      ss', es' := TickWhenDue(s, ss', es', timer, 2, 12);
      starts := 3;
    }
  }

  /** From any state that can be reached, however many reconciles of other processes hang in it, and wherever the timer
      of a running process `p` stands: undisturbed by others, `p` comes to hold the lock with a session of its own by
      the third firing of its timer, at most one session lifetime, one lock delay and two intervals from now, which are
      95 seconds, and the zone then serves exactly what `p` probed as healthy. */
  lemma SurvivorTakesOver(s: State, timer: Timer, cfg: LbConfig, oks: seq<bool>, rows: seq<ZoneRow>)
    returns (ss: seq<State>, es: seq<Event>, starts: nat)
    requires Survives(s, timer.p) && s.consul.now <= timer.due <= s.consul.now + INTERVAL
    requires SwitchedOn(cfg) && |oks| == |cfg.members|
    requires PickZone(rows, cfg.zoneName).Some? && |s.zone.records| <= PAGE_SIZE
    ensures Schedule(s, ss, es, timer, starts, 22 + |cfg.members| + |s.zone.records|) && 1 <= starts <= 3
    ensures LastOf(ss).consul.now == Due(timer, starts - 1)
    ensures LastOf(ss).consul.now <= s.consul.now + 95
    ensures LeaderAt(LastOf(ss), timer.p, Reconciling(Finished))
    ensures forall ip :: ip in Contents(LastOf(ss).zone) <==> Healthy(cfg.members, oks, ip)
  {
    ss, es, starts := SurvivorLeads(s, timer);
    var tick, events := LeaderReconciles(LastOf(ss), timer.p, cfg, oks, rows);
    ss, es := ThenAll(s, ss, es, timer, starts, 16, tick, events, 6 + |cfg.members| + |s.zone.records|);
  }

  /** The same for a state at the end of any run from the start. */
  lemma TakeoverFromReachable(past: seq<State>, history: seq<Event>, timer: Timer, cfg: LbConfig, oks: seq<bool>,
                              rows: seq<ZoneRow>)
    returns (ss: seq<State>, es: seq<Event>, starts: nat)
    requires Run(past, history) && Init(past[0]) && timer.p in LastOf(past).procs && LastOf(past).procs[timer.p].alive
    requires LastOf(past).consul.now <= timer.due <= LastOf(past).consul.now + INTERVAL
    requires SwitchedOn(cfg) && |oks| == |cfg.members|
    requires PickZone(rows, cfg.zoneName).Some? && |LastOf(past).zone.records| <= PAGE_SIZE
    ensures Schedule(LastOf(past), ss, es, timer, starts, 22 + |cfg.members| + |LastOf(past).zone.records|)
    ensures 1 <= starts <= 3 && LastOf(ss).consul.now == Due(timer, starts - 1)
    ensures LeaderAt(LastOf(ss), timer.p, Reconciling(Finished))
    ensures forall ip :: ip in Contents(LastOf(ss).zone) <==> Healthy(cfg.members, oks, ip)
  {
    InitInv(past[0]);
    InvRun(past, history, |past| - 1);
    ss, es, starts := SurvivorTakesOver(LastOf(past), timer, cfg, oks, rows);
  }

  /** Within one session lifetime and one lock delay, 35 seconds, the lock comes free, if its holder is not renewed. */
  lemma FreeTheLock(s: State) returns (ss: seq<State>, es: seq<Event>)
    requires Inv(s)
    ensures Run(ss, es) && ss[0] == s && forall e :: e in es ==> e.Advance? || e.Expire?
    ensures var l := LastOf(ss);
            && Inv(l) && l.consul.holder.None? && l.consul.now >= l.consul.delayUntil
            && l.consul.now <= s.consul.now + 35
            && l.procs == s.procs && l.ticks == s.ticks && l.zone == s.zone
  {
    ss, es := [s], [];
    if s.consul.holder.Some? {
      ss := Extend(ss, es, Advance(SESSION_TTL));
      InvStep(s, Advance(SESSION_TTL));
      var l := LastOf(ss);
      ss := Extend(ss, [Advance(SESSION_TTL)], Expire(s.consul.holder.value));
      InvStep(l, Expire(s.consul.holder.value));
      es := [Advance(SESSION_TTL)] + [Expire(s.consul.holder.value)];
    }
    var l := LastOf(ss);
    ss := Extend(ss, es, Advance(LOCK_DELAY));
    InvStep(l, Advance(LOCK_DELAY));
    es := es + [Advance(LOCK_DELAY)];
  }
}
