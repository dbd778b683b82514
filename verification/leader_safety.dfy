/** Who may reconcile: safety of the session lock over every run (apps/dokploy/lb-controller.ts:41-82, 189-204). */
module LeaderSafety {
  import opened Ordering
  import opened Dns
  import opened Reconcile
  import opened Cluster

  /** In every reachable state the ticks whose lock grant is still backed by a live session share one session,
      and that session is the lock holder. */
  lemma AtMostOneLiveLeader(ss: seq<State>, es: seq<Event>, n: nat, t: nat, u: nat)
    requires Run(ss, es) && Init(ss[0]) && n < |ss|
    requires t < |ss[n].ticks| && u < |ss[n].ticks|
    requires var g := ss[n].ticks[t].granted; g.Some? && g.value in ss[n].consul.live
    requires var g := ss[n].ticks[u].granted; g.Some? && g.value in ss[n].consul.live
    ensures ss[n].ticks[t].granted == ss[n].ticks[u].granted == ss[n].consul.holder
    ensures ss[n].ticks[t].proc == ss[n].ticks[u].proc
  {
    InitInv(ss[0]);
    InvRun(ss, es, n);
    assert ss[n].ticks[t] in ss[n].ticks && ss[n].ticks[u] in ss[n].ticks;
  }

  /** From `s` to `s'` tick `t` is granted the lock for a live session that its own process created. */
  ghost predicate OwnGrant(s: State, s': State, t: nat) {
    && t < |s.ticks| && s.ticks[t].pc.Acquiring? && s.ticks[t].pc.arg.Some?
    && var x := s.ticks[t].pc.arg.value;
       && x in s.consul.live && x in s.creators && s.creators[x] == s.ticks[t].proc
       && s'.consul.holder == Some(x) && t < |s'.ticks| && s'.ticks[t].granted == Some(x)
  }

  /** A tick is past the lock only if, earlier in the run, Consul granted and confirmed the lock
      to a live session that the tick's own process had created. */
  lemma {:induction false} EntryWasGranted(ss: seq<State>, es: seq<Event>, n: nat, t: nat)
    requires Run(ss, es) && Init(ss[0]) && n < |ss|
    requires t < |ss[n].ticks| && Entered(ss[n].ticks[t].pc)
    ensures exists k :: 0 <= k < n && es[k] == Acquired(t, Answered) && OwnGrant(ss[k], ss[k + 1], t)
  {
    InitInv(ss[0]);
    InvRun(ss, es, n - 1);
    var s, e := ss[n - 1], es[n - 1];
    if t < |s.ticks| && Entered(s.ticks[t].pc) {
      EntryWasGranted(ss, es, n - 1, t);
    } else {
      EntryStep(s, e, t);
      assert es[n - 1] == Acquired(t, Answered) && OwnGrant(ss[n - 1], ss[n - 1 + 1], t);
    }
  }

  /** Only a granted and answered request for the lock takes a tick past it. */
  lemma EntryStep(s: State, e: Event, t: nat)
    requires Inv(s) && Enabled(s, e) && t < |Next(s, e).ticks|
    requires Entered(Next(s, e).ticks[t].pc) && !(t < |s.ticks| && Entered(s.ticks[t].pc))
    ensures e == Acquired(t, Answered) && OwnGrant(s, Next(s, e), t)
  {
    if t < |s.ticks| && Owner(e) != Some(t) {
      OthersStand(s, e, t);
    } else if t < |s.ticks| {
      assert TickOk(s, s.ticks[t]) by { assert s.ticks[t] in s.ticks; }
      OwnEntryStep(s, e, t);
    }
  }

  lemma OwnEntryStep(s: State, e: Event, t: nat)
    requires Enabled(s, e) && t < |s.ticks| && Owner(e) == Some(t) && TickOk(s, s.ticks[t])
    requires Entered(Next(s, e).ticks[t].pc) && !Entered(s.ticks[t].pc)
    ensures e == Acquired(t, Answered) && OwnGrant(s, Next(s, e), t)
  {
  }

  // --- One tick at a time -------------------------------------------------------

  /** Process `p` has no two ticks in flight. */
  ghost predicate SequentialFor(s: State, p: Pid) {
    forall i, j :: 0 <= i < j < |s.ticks| && s.ticks[i].proc == s.ticks[j].proc == p ==>
      Ended(s.ticks[i].pc) || Ended(s.ticks[j].pc)
  }

  ghost predicate OneSession(s: State, k: Tick) {
    && k.proc in s.procs
    && (k.pc.Renewing? ==> s.procs[k.proc].sessionId == Some(k.pc.sid))
    && (k.pc.Acquiring? ==> k.pc.arg == k.renewed && k.renewed.Some?)
    && (Entered(k.pc) ==> k.granted == k.renewed && k.renewed.Some?)
  }

  /** Only a process's own ticks assign its `sessionId`. */
  lemma SessionUntouched(s: State, e: Event, p: Pid)
    requires Enabled(s, e) && p in s.procs
    requires Owner(e).Some? ==> s.ticks[Owner(e).value].proc != p
    ensures p in Next(s, e).procs && Next(s, e).procs[p].sessionId == s.procs[p].sessionId
  {
  }

  /** What a tick's own steps do to its process's `sessionId`: an answered creation sets it to the new session, a failed
      one clears it, and so does a renewal that is not answered with success. */
  lemma SessionAfterStep(s: State, e: Event)
    requires Enabled(s, e) && Owner(e).Some?
    ensures var p := s.ticks[Owner(e).value].proc;
            p in Next(s, e).procs
            && Next(s, e).procs[p].sessionId
               == if e.Created? then (if e.reply.Answered? then Some(s.consul.nextSid) else None)
                  else if e.Renewed? && !(e.reply.Answered? && s.ticks[e.t].pc.sid in s.consul.live) then None
                  else s.procs[p].sessionId
  {
    match e
    case Created(t, reply) => assert CreateSession(s, t, reply).procs.Keys == s.procs.Keys;
    case Renewed(t, reply) => assert RenewSession(s, t, reply).procs.Keys == s.procs.Keys;
    case Acquired(t, reply) => assert AcquireLock(s, t, reply).procs == s.procs;
    case _ =>
  }

  lemma OneSessionOther(s: State, e: Event, t: nat)
    requires Enabled(s, e) && t < |s.ticks| && SequentialFor(s, s.ticks[t].proc)
    requires Owner(e) != Some(t) && OneSession(s, s.ticks[t])
    ensures OneSession(Next(s, e), Next(s, e).ticks[t])
  {
    OthersStand(s, e, t);
    if Owner(e).Some? { OtherProcess(s, Owner(e).value, t); }
    if !Ended(s.ticks[t].pc) { SessionUntouched(s, e, s.ticks[t].proc); }
  }

  lemma OneSessionOwner(s: State, e: Event, t: nat)
    requires Enabled(s, e) && t < |s.ticks| && Owner(e) == Some(t) && OneSession(s, s.ticks[t])
    ensures OneSession(Next(s, e), Next(s, e).ticks[t])
  {
    match e
    case Created(_, reply) => OneSessionCreated(s, t, reply);
    case Renewed(_, reply) => OneSessionRenewed(s, t, reply);
    case Acquired(_, reply) => OneSessionAcquired(s, t, reply);
    case _ =>
  }

  lemma OneSessionCreated(s: State, t: nat, reply: Reply)
    requires At(s, t) && s.ticks[t].pc.Creating?
    ensures var s' := CreateSession(s, t, reply); t < |s'.ticks| && OneSession(s', s'.ticks[t])
  {
  }

  lemma OneSessionRenewed(s: State, t: nat, reply: Reply)
    requires At(s, t) && s.ticks[t].pc.Renewing? && OneSession(s, s.ticks[t])
    ensures var s' := RenewSession(s, t, reply); t < |s'.ticks| && OneSession(s', s'.ticks[t])
  {
  }

  lemma OneSessionAcquired(s: State, t: nat, reply: Reply)
    requires At(s, t) && s.ticks[t].pc.Acquiring? && OneSession(s, s.ticks[t])
    ensures var s' := AcquireLock(s, t, reply); t < |s'.ticks| && OneSession(s', s'.ticks[t])
  {
  }

  lemma OneSessionStep(s: State, e: Event, t: nat)
    requires Enabled(s, e) && t < |Next(s, e).ticks| && SequentialFor(s, Next(s, e).ticks[t].proc)
    requires t < |s.ticks| ==> OneSession(s, s.ticks[t])
    ensures OneSession(Next(s, e), Next(s, e).ticks[t])
  {
    if t < |s.ticks| {
      SameProcess(s, e, t);
      if Owner(e) == Some(t) { OneSessionOwner(s, e, t); } else { OneSessionOther(s, e, t); }
    }
  }

  /** Ticks do not change hands. */
  lemma SameProcess(s: State, e: Event, t: nat)
    requires Enabled(s, e) && t < |s.ticks|
    ensures t < |Next(s, e).ticks| && Next(s, e).ticks[t].proc == s.ticks[t].proc
  {
    if Owner(e) != Some(t) { OthersStand(s, e, t); }
  }

  lemma OtherProcess(s: State, u: nat, t: nat)
    requires u < |s.ticks| && t < |s.ticks| && SequentialFor(s, s.ticks[t].proc)
    requires u != t && !Ended(s.ticks[u].pc)
    ensures s.ticks[u].proc != s.ticks[t].proc || Ended(s.ticks[t].pc)
  {
    if u < t { assert s.ticks[u].proc == s.ticks[t].proc ==> Ended(s.ticks[t].pc); }
  }

  lemma {:induction false} OneSessionRun(ss: seq<State>, es: seq<Event>, n: nat, t: nat)
    requires Run(ss, es) && Init(ss[0]) && n < |ss| && t < |ss[n].ticks|
    requires forall k :: 0 <= k < n ==> SequentialFor(ss[k], ss[n].ticks[t].proc)
    ensures OneSession(ss[n], ss[n].ticks[t])
  {
    if n == 0 {
    } else {
      if t < |ss[n - 1].ticks| {
        SameProcess(ss[n - 1], es[n - 1], t);
        OneSessionRun(ss, es, n - 1, t);
      }
      OneSessionStep(ss[n - 1], es[n - 1], t);
    }
  }

  /** While the ticks of its own process do not overlap, whatever the other processes do, a tick past the lock
      holds the grant for the very session it renewed. */
  lemma GrantIsForTheRenewedSession(ss: seq<State>, es: seq<Event>, n: nat, t: nat)
    requires Run(ss, es) && Init(ss[0]) && n < |ss|
    requires t < |ss[n].ticks| && Entered(ss[n].ticks[t].pc)
    requires forall k :: 0 <= k < n ==> SequentialFor(ss[k], ss[n].ticks[t].proc)
    ensures ss[n].ticks[t].renewed.Some? && ss[n].ticks[t].granted == ss[n].ticks[t].renewed
  {
    OneSessionRun(ss, es, n, t);
  }

  /** Tick `k`, unless it ended early, has renewed `id` and asks or has asked for the lock with `arg`. */
  ghost predicate AsksWith(k: Tick, id: Sid, arg: Option<Sid>) {
    || k.pc.Returned? || k.pc.Threw? || k.pc.Crashed?
    || (k.renewed == Some(id) && ((k.pc.Acquiring? && k.pc.arg == arg) || (Entered(k.pc) && k.granted == arg)))
  }

  lemma AsksWithStep(s: State, e: Event, t: nat, id: Sid, arg: Option<Sid>)
    requires Enabled(s, e) && t < |s.ticks| && AsksWith(s.ticks[t], id, arg)
    ensures t < |Next(s, e).ticks| && AsksWith(Next(s, e).ticks[t], id, arg)
  {
    if Owner(e) != Some(t) { OthersStand(s, e, t); }
  }

  lemma {:induction false} AsksWithAfterRenewal(ss: seq<State>, es: seq<Event>, k: nat, m: nat, t: nat)
    requires Run(ss, es) && k < m < |ss| && es[k] == Renewed(t, Answered)
    ensures t < |ss[m].ticks| && ss[k].ticks[t].pc.Renewing?
    ensures AsksWith(ss[m].ticks[t], ss[k].ticks[t].pc.sid, ss[k].procs[ss[k].ticks[t].proc].sessionId)
  {
    if m == k + 1 {
    } else {
      AsksWithAfterRenewal(ss, es, k, m - 1, t);
      AsksWithStep(ss[m - 1], es[m - 1], t, ss[k].ticks[t].pc.sid, ss[k].procs[ss[k].ticks[t].proc].sessionId);
    }
  }

  lemma PastRenewalStep(s: State, e: Event, t: nat)
    requires Enabled(s, e) && t < |Next(s, e).ticks|
    requires Next(s, e).ticks[t].pc.Acquiring? || Entered(Next(s, e).ticks[t].pc)
    ensures t < |s.ticks| && (e == Renewed(t, Answered) || s.ticks[t].pc.Acquiring? || Entered(s.ticks[t].pc))
  {
    if t < |s.ticks| && Owner(e) != Some(t) { OthersStand(s, e, t); }
  }

  /** The step at which a tick that asks for the lock, or is past it, learned that its renewal succeeded. */
  lemma {:induction false} RenewalOf(ss: seq<State>, es: seq<Event>, n: nat, t: nat) returns (k: nat)
    requires Run(ss, es) && Init(ss[0]) && n < |ss| && t < |ss[n].ticks|
    requires ss[n].ticks[t].pc.Acquiring? || Entered(ss[n].ticks[t].pc)
    ensures k < n && es[k] == Renewed(t, Answered)
  {
    k := n - 1;
    var s, e := ss[n - 1], es[n - 1];
    assert ss[n] == Next(s, e);
    if e != Renewed(t, Answered) {
      PastRenewalStep(s, e, t);
      k := RenewalOf(ss, es, n - 1, t);
    }
  }

  /** With overlapping ticks too: a tick past the lock has one step at which its renewal was answered, and its grant
      is for the session it renewed exactly when that session was then still its process's `sessionId`. */
  lemma GrantIsForTheSessionHeldAtRenewal(ss: seq<State>, es: seq<Event>, n: nat, t: nat)
    requires Run(ss, es) && Init(ss[0]) && n < |ss|
    requires t < |ss[n].ticks| && Entered(ss[n].ticks[t].pc)
    ensures exists k :: 0 <= k < n && es[k] == Renewed(t, Answered)
    ensures forall k :: 0 <= k < n && es[k] == Renewed(t, Answered) ==>
              && t < |ss[k].ticks| && ss[k].ticks[t].proc in ss[k].procs
              && var held := ss[k].procs[ss[k].ticks[t].proc].sessionId;
                 var tick := ss[n].ticks[t];
                 && tick.renewed.Some? && ss[k].ticks[t].pc == Renewing(tick.renewed.value)
                 && (tick.granted == tick.renewed <==> held == tick.renewed)
  {
    var k0 := RenewalOf(ss, es, n, t);
    forall k | 0 <= k < n && es[k] == Renewed(t, Answered)
      ensures && t < |ss[k].ticks| && ss[k].ticks[t].proc in ss[k].procs
              && var held := ss[k].procs[ss[k].ticks[t].proc].sessionId;
                 var tick := ss[n].ticks[t];
                 && tick.renewed.Some? && ss[k].ticks[t].pc == Renewing(tick.renewed.value)
                 && (tick.granted == tick.renewed <==> held == tick.renewed)
    {
      AsksWithAfterRenewal(ss, es, k, n, t);
    }
  }

  function LastOf(ss: seq<State>): State
    requires ss != []
  {
    ss[|ss| - 1]
  }

  /** One more step at the end of a run. */
  lemma Extend(ss: seq<State>, es: seq<Event>, e: Event) returns (ss': seq<State>)
    requires Run(ss, es) && Enabled(LastOf(ss), e)
    ensures ss' == ss + [Next(LastOf(ss), e)]
    ensures Run(ss', es + [e]) && ss'[0] == ss[0] && LastOf(ss') == Next(LastOf(ss), e)
  {
    ss' := ss + [Next(LastOf(ss), e)];
  }

  /** Every start so far was at least an interval before `time`. */
  ghost predicate StartedBefore(ss: seq<State>, es: seq<Event>, time: nat)
    requires |ss| == |es| + 1
  {
    forall j :: 0 <= j < |es| && es[j].Start? ==> ss[j].consul.now + INTERVAL <= time
  }

  /** One more step that keeps the timer's rule. */
  lemma ExtendOnTime(ss: seq<State>, es: seq<Event>, e: Event) returns (ss': seq<State>, es': seq<Event>)
    requires Run(ss, es) && TimerKept(ss, es) && Enabled(LastOf(ss), e)
    requires e.Start? ==> StartedBefore(ss, es, LastOf(ss).consul.now)
    requires var l := LastOf(ss);
             e.Start? ==> forall t: nat :: FirstTick(l, t) && l.ticks[t].proc == e.p ==> Ended(l.ticks[t].pc)
    ensures es' == es + [e] && Run(ss', es') && TimerKept(ss', es') && ss'[0] == ss[0]
    ensures LastOf(ss') == Next(LastOf(ss), e)
    ensures forall time: nat ::
              StartedBefore(ss, es, time) && (e.Start? ==> LastOf(ss).consul.now + INTERVAL <= time) ==>
                StartedBefore(ss', es', time)
  {
    ss' := Extend(ss, es, e);
    es' := es + [e];
    forall k | 0 <= k < |es| ensures es'[k] == es[k] && ss'[k] == ss[k] {}
  }

  /** Without that condition it may hold it for another one, and a process whose timer keeps its rule can get there:
      its first tick fails to create a session, the next two overlap and each create one, and the earlier of them,
      having renewed its own, asks for the lock with the later one's. */
  lemma OverlapMayUseAnotherSession(s0: State) returns (ss: seq<State>, es: seq<Event>)
    requires Init(s0)
    ensures Run(ss, es) && TimerKept(ss, es) && ss[0] == s0
    ensures |LastOf(ss).ticks| == 3 && Entered(LastOf(ss).ticks[1].pc)
    ensures LastOf(ss).ticks[1].granted != LastOf(ss).ticks[1].renewed
  {
    ss, es := FirstTickFails(s0);
    ss, es := TwoMoreStart(ss, es);
    ss, es := BothCreate(ss, es);
    ss, es := ExtendOnTime(ss, es, Renewed(1, Answered));
    assert LastOf(ss).ticks[1] == Tick(0, Acquiring(Some(1)), Some(0), None);
    ss, es := ExtendOnTime(ss, es, Acquired(1, Answered));
  }

  const FAILED_FIRST := Tick(0, Returned, None, None)

  ghost predicate NoSessionYet(s: State) {
    && 0 in s.procs && s.procs[0] == Proc(None, true)
    && s.consul.nextSid == 0 && s.consul.holder == None && s.consul.delayUntil == 0
  }

  lemma FirstTickFails(s0: State) returns (ss: seq<State>, es: seq<Event>)
    requires Init(s0)
    ensures Run(ss, es) && TimerKept(ss, es) && ss[0] == s0 && StartedBefore(ss, es, LastOf(ss).consul.now + INTERVAL)
    ensures LastOf(ss).ticks == [FAILED_FIRST] && NoSessionYet(LastOf(ss))
  {
    ss, es := ExtendOnTime([s0], [], Boot(0));
    ss, es := ExtendOnTime(ss, es, Start(0));
    ss, es := ExtendOnTime(ss, es, Created(0, Unreached));
  }

  /** An interval passes and the timer fires. */
  lemma NextStart(ss: seq<State>, es: seq<Event>) returns (ss': seq<State>, es': seq<Event>)
    requires Run(ss, es) && TimerKept(ss, es) && StartedBefore(ss, es, LastOf(ss).consul.now + INTERVAL)
    requires LastOf(ss).ticks != [] && LastOf(ss).ticks[0] == FAILED_FIRST && NoSessionYet(LastOf(ss))
    ensures Run(ss', es') && TimerKept(ss', es') && ss'[0] == ss[0]
    ensures StartedBefore(ss', es', LastOf(ss').consul.now + INTERVAL)
    ensures LastOf(ss').ticks == LastOf(ss).ticks + [Tick(0, Creating, None, None)] && NoSessionYet(LastOf(ss'))
  {
    ss', es' := ExtendOnTime(ss, es, Advance(INTERVAL));
    ss', es' := ExtendOnTime(ss', es', Start(0));
  }

  lemma TwoMoreStart(ss: seq<State>, es: seq<Event>) returns (ss': seq<State>, es': seq<Event>)
    requires Run(ss, es) && TimerKept(ss, es) && StartedBefore(ss, es, LastOf(ss).consul.now + INTERVAL)
    requires LastOf(ss).ticks == [FAILED_FIRST] && NoSessionYet(LastOf(ss))
    ensures Run(ss', es') && TimerKept(ss', es') && ss'[0] == ss[0]
    ensures LastOf(ss').ticks == [FAILED_FIRST, Tick(0, Creating, None, None), Tick(0, Creating, None, None)]
    ensures NoSessionYet(LastOf(ss'))
  {
    ss', es' := NextStart(ss, es);
    ss', es' := NextStart(ss', es');
  }

  lemma BothCreate(ss: seq<State>, es: seq<Event>) returns (ss': seq<State>, es': seq<Event>)
    requires Run(ss, es) && TimerKept(ss, es) && NoSessionYet(LastOf(ss))
    requires LastOf(ss).ticks == [FAILED_FIRST, Tick(0, Creating, None, None), Tick(0, Creating, None, None)]
    ensures Run(ss', es') && TimerKept(ss', es') && ss'[0] == ss[0]
    ensures var s := LastOf(ss');
            && s.ticks == [FAILED_FIRST, Tick(0, Renewing(0), None, None), Tick(0, Renewing(1), None, None)]
            && 0 in s.procs && s.procs[0].sessionId == Some(1) && 0 in s.consul.live && 1 in s.consul.live
            && s.consul.holder == None && s.consul.delayUntil == 0
  {
    ss', es' := ExtendOnTime(ss, es, Created(1, Answered));
    assert LastOf(ss').ticks == [FAILED_FIRST, Tick(0, Renewing(0), None, None), Tick(0, Creating, None, None)];
    ss', es' := ExtendOnTime(ss', es', Created(2, Answered));
  }

  // --- Successive leaders -------------------------------------------------------

  /** Consul gives the lock to session `x`, whether or not the caller learns of it. */
  ghost predicate Grants(s: State, e: Event, x: Sid) {
    && e.Acquired? && Enabled(s, e) && s.ticks[e.t].pc.arg == Some(x)
    && CanAcquire(s.consul, Some(x)) && e.reply != Unreached
  }

  /** Session `x` ends while it holds the lock. */
  ghost predicate Loses(s: State, e: Event, x: Sid) {
    s.consul.holder == Some(x) && (e == Expire(x) || e == Destroy(x))
  }

  /** Earliest time at which the next session can be granted the lock, or the time now if it already was. */
  function FreeAt(c: Consul): nat { if c.holder.Some? then c.now else c.delayUntil }

  lemma FreeAtGrows(s: State, e: Event)
    requires Inv(s) && Enabled(s, e)
    ensures s.consul.now <= Next(s, e).consul.now
    ensures FreeAt(s.consul) <= FreeAt(Next(s, e).consul)
  {
  }

  lemma HolderStays(s: State, e: Event, x: Sid)
    requires Inv(s) && Enabled(s, e) && s.consul.holder == Some(x)
    ensures Next(s, e).consul.holder == Some(x)
            || (Loses(s, e, x) && FreeAt(Next(s, e).consul) >= s.consul.now + LOCK_DELAY)
  {
  }

  lemma GrantHolds(s: State, e: Event, x: Sid)
    requires Grants(s, e, x)
    ensures Next(s, e).consul.holder == Some(x)
  {
  }

  /** Session `x` ended at `lost` while it held the lock, and the delay since then is respected. */
  ghost predicate LostBefore(lost: State, e: Event, s: State, x: Sid) {
    Loses(lost, e, x) && FreeAt(s.consul) >= lost.consul.now + LOCK_DELAY
  }

  lemma HeldOrLostStep(s: State, e: Event, x: Sid, lost: State, le: Event)
    requires Inv(s) && Enabled(s, e) && (s.consul.holder == Some(x) || LostBefore(lost, le, s, x))
    ensures var s' := Next(s, e);
            || s'.consul.holder == Some(x) || LostBefore(lost, le, s', x)
            || (s.consul.holder == Some(x) && LostBefore(s, e, s', x))
  {
    if s.consul.holder == Some(x) { HolderStays(s, e, x); } else { FreeAtGrows(s, e); }
  }

  /** Session `x`, granted the lock at step `i`, still holds it at `m` or lost it at step `k`. */
  lemma {:induction false} HeldOrLost(ss: seq<State>, es: seq<Event>, i: nat, m: nat, x: Sid) returns (k: nat)
    requires Run(ss, es) && Inv(ss[0]) && i < m < |ss| && Grants(ss[i], es[i], x)
    ensures ss[m].consul.holder == Some(x) || (i < k < m && LostBefore(ss[k], es[k], ss[m], x))
  {
    k := i;
    if m == i + 1 {
      GrantHolds(ss[i], es[i], x);
    } else {
      InvRun(ss, es, m - 1);
      k := HeldOrLost(ss, es, i, m - 1, x);
      var lost := if i < k < m - 1 then k else m - 1;
      HeldOrLostStep(ss[m - 1], es[m - 1], x, ss[lost], es[lost]);
      k := if ss[m - 1].consul.holder == Some(x) then m - 1 else k;
    }
  }

  /** Between grants to two different sessions the earlier session has ended while holding the lock,
      at least the lock delay before the later grant. */
  lemma GrantsAreSeparated(ss: seq<State>, es: seq<Event>, i: nat, j: nat, x: Sid, y: Sid)
    requires Run(ss, es) && Init(ss[0]) && i < j < |es| && x != y
    requires Grants(ss[i], es[i], x) && Grants(ss[j], es[j], y)
    ensures exists k :: i < k < j && Loses(ss[k], es[k], x) && ss[j].consul.now >= ss[k].consul.now + 5
  {
    InitInv(ss[0]);
    var k := HeldOrLost(ss, es, i, j, x);
  }

  // --- A renewed session lasts --------------------------------------------------

  /** Consul creates the session or renews it, whether or not the answer arrives. */
  ghost predicate Refreshes(s: State, e: Event, x: Sid) {
    || (e.Created? && !e.reply.Unreached? && x == s.consul.nextSid)
    || (e.Renewed? && !e.reply.Unreached? && At(s, e.t) && s.ticks[e.t].pc == Renewing(x) && x in s.consul.live)
  }

  /** The session is live, has lasted since `time` at least, and holds the lock if `holds`. */
  ghost predicate LastsSince(s: State, x: Sid, time: nat, holds: bool) {
    x in s.consul.live && s.consul.live[x] >= time && (holds ==> s.consul.holder == Some(x))
  }

  lemma RefreshLasts(s: State, e: Event, x: Sid)
    requires Enabled(s, e) && Refreshes(s, e, x)
    ensures LastsSince(Next(s, e), x, s.consul.now, s.consul.holder == Some(x))
  {
  }

  lemma LastsStep(s: State, e: Event, x: Sid, time: nat, holds: bool)
    requires Inv(s) && Enabled(s, e) && LastsSince(s, x, time, holds) && e != Destroy(x) && s.consul.now < time + 30
    ensures LastsSince(Next(s, e), x, time, holds || s.consul.holder == Some(x))
  {
    match e
    case Created(t, reply) => CreatedLasts(s, t, reply, x, time, holds);
    case Renewed(t, reply) => RenewedLasts(s, t, reply, x, time, holds);
    case Acquired(t, reply) => AcquiredLasts(s, t, reply, x, time, holds);
    case _ =>
  }

  lemma CreatedLasts(s: State, t: nat, reply: Reply, x: Sid, time: nat, holds: bool)
    requires Inv(s) && At(s, t) && LastsSince(s, x, time, holds)
    ensures LastsSince(CreateSession(s, t, reply), x, time, holds || s.consul.holder == Some(x))
  {
  }

  lemma RenewedLasts(s: State, t: nat, reply: Reply, x: Sid, time: nat, holds: bool)
    requires Inv(s) && At(s, t) && s.ticks[t].pc.Renewing? && LastsSince(s, x, time, holds)
    ensures LastsSince(RenewSession(s, t, reply), x, time, holds || s.consul.holder == Some(x))
  {
  }

  lemma AcquiredLasts(s: State, t: nat, reply: Reply, x: Sid, time: nat, holds: bool)
    requires Inv(s) && At(s, t) && s.ticks[t].pc.Acquiring? && LastsSince(s, x, time, holds)
    ensures LastsSince(AcquireLock(s, t, reply), x, time, holds || s.consul.holder == Some(x))
  {
  }

  /** From step `k` on to `n` the session is not destroyed, and less than thirty seconds pass. */
  ghost predicate Undisturbed(ss: seq<State>, es: seq<Event>, k: nat, n: nat, x: Sid)
    requires |ss| == |es| + 1 && k < n < |ss|
  {
    forall i :: k < i < n ==> es[i] != Destroy(x) && ss[i].consul.now < ss[k].consul.now + 30
  }

  lemma LastsOneMore(ss: seq<State>, es: seq<Event>, n: nat, x: Sid, time: nat, holds: bool)
    requires Run(ss, es) && Init(ss[0]) && n < |es| && LastsSince(ss[n], x, time, holds)
    requires es[n] != Destroy(x) && ss[n].consul.now < time + 30
    ensures LastsSince(ss[n + 1], x, time, holds || ss[n].consul.holder == Some(x))
  {
    InitInv(ss[0]);
    InvRun(ss, es, n);
    LastsStep(ss[n], es[n], x, time, holds);
  }

  lemma {:induction false} SessionLasts(ss: seq<State>, es: seq<Event>, k: nat, n: nat, x: Sid)
    requires Run(ss, es) && Init(ss[0]) && k < n < |ss| && Refreshes(ss[k], es[k], x) && Undisturbed(ss, es, k, n, x)
    ensures LastsSince(ss[n], x, ss[k].consul.now, false)
  {
    if n == k + 1 {
      RefreshLasts(ss[k], es[k], x);
    } else {
      SessionLasts(ss, es, k, n - 1, x);
      LastsOneMore(ss, es, n - 1, x, ss[k].consul.now, false);
    }
  }

  /** A session that was created or renewed in step `k` is live for the session lifetime of thirty seconds unless it is
      destroyed, and once it holds the lock in this time no other session can get it. */
  lemma {:induction false} RenewalProtects(ss: seq<State>, es: seq<Event>, k: nat, j: nat, n: nat, x: Sid)
    requires Run(ss, es) && Init(ss[0]) && k < j <= n < |ss| && Refreshes(ss[k], es[k], x)
    requires Undisturbed(ss, es, k, n, x)
    ensures x in ss[n].consul.live
    ensures ss[j].consul.holder == Some(x) ==> ss[n].consul.holder == Some(x)
  {
    SessionLasts(ss, es, k, n, x);
    if ss[j].consul.holder == Some(x) { HolderLasts(ss, es, k, j, n, x); }
  }

  lemma {:induction false} HolderLasts(ss: seq<State>, es: seq<Event>, k: nat, j: nat, n: nat, x: Sid)
    requires Run(ss, es) && Init(ss[0]) && k < j <= n < |ss| && Refreshes(ss[k], es[k], x)
    requires Undisturbed(ss, es, k, n, x) && ss[j].consul.holder == Some(x)
    ensures LastsSince(ss[n], x, ss[k].consul.now, true)
  {
    if n == j {
      SessionLasts(ss, es, k, n, x);
    } else {
      HolderLasts(ss, es, k, j, n - 1, x);
      LastsOneMore(ss, es, n - 1, x, ss[k].consul.now, true);
    }
  }
}
