/** Two leaders at once: from every initial state there are runs in which a second process is granted the lock and
    lists while the first, which hangs in its reconcile, is still to write, and every interleaving of their writes is
    a run too (apps/dokploy/lb-controller.ts:157-208). */
module TwoLeaders {
  import opened Ordering
  import opened Dns
  import opened Reconcile
  import opened Cluster
  import opened LeaderSafety
  import opened Takeover
  import opened StaleLeader

  // --- Every interleaving is a run ----------------------------------------------

  /** Tick `at` of process `p` has the lock granted and is at `r`. */
  ghost predicate Reconciles(s: State, at: nat, p: Pid, r: Recon) {
    At(s, at) && s.ticks[at].proc == p && s.ticks[at].granted.Some? && s.ticks[at].pc == Reconciling(r)
  }

  /** The leaders `ps`, in the ticks `at`, are at `rs`. */
  ghost predicate AllReconcile(s: State, at: seq<nat>, ps: seq<Pid>, rs: seq<Recon>) {
    && |at| == |ps| == |rs|
    && (forall t, u :: 0 <= t < u < |at| ==> at[t] != at[u])
    && forall t :: 0 <= t < |at| ==> Reconciles(s, at[t], ps[t], rs[t])
  }

  lemma OnePlay(s: State, at: seq<nat>, ps: seq<Pid>, rs: seq<Recon>, p: Play)
    requires AllReconcile(s, at, ps, rs) && p.leader < |rs| && Writing(rs[p.leader])
    ensures var e := Turn(at[p.leader], p.outcome);
            var (z, r) := Step(s.zone, rs[p.leader], p.outcome);
            Enabled(s, e) && Next(s, e).zone == z && AllReconcile(Next(s, e), at, ps, rs[p.leader := r])
  {
    var e := Turn(at[p.leader], p.outcome);
    var r := Step(s.zone, rs[p.leader], p.outcome).1;
    forall t | 0 <= t < |at| ensures Reconciles(Next(s, e), at[t], ps[t], rs[p.leader := r][t]) {
      assert Reconciles(s, at[t], ps[t], rs[t]);
      if t != p.leader { OthersStand(s, e, at[t]); }
    }
  }

  ghost predicate OnlyTurns(es: seq<Event>) { forall e :: e in es ==> e.Turn? }

  /** Every interleaving of turns of reconciles in flight is a run of the step system. */
  lemma {:induction false} PlayRun(s: State, at: seq<nat>, ps: seq<Pid>, rs: seq<Recon>, plays: seq<Play>)
    returns (ss: seq<State>, es: seq<Event>)
    requires AllReconcile(s, at, ps, rs) && PlaysOf(|rs|, plays)
    ensures Run(ss, es) && ss[0] == s && OnlyTurns(es)
    ensures LastOf(ss).zone == Played(s.zone, rs, plays).0
    ensures AllReconcile(LastOf(ss), at, ps, Played(s.zone, rs, plays).1)
    ensures LastOf(ss).procs == s.procs && LastOf(ss).consul == s.consul && |LastOf(ss).ticks| == |s.ticks|
  {
    if plays == [] {
      ss, es := [s], [];
    } else {
      var front, p := plays[..|plays| - 1], plays[|plays| - 1];
      ss, es := PlayRun(s, at, ps, rs, front);
      var rs' := Played(s.zone, rs, front).1;
      if Writing(rs'[p.leader]) {
        OnePlay(LastOf(ss), at, ps, rs', p);
        ss := Extend(ss, es, Turn(at[p.leader], p.outcome));
        es := es + [Turn(at[p.leader], p.outcome)];
      } else {
        assert rs'[p.leader := rs'[p.leader]] == rs';
      }
    }
  }

  /** In a reachable state every listing in use names ids that were handed out before. */
  lemma ReachableIsOld(s: State, at: seq<nat>, ps: seq<Pid>, rs: seq<Recon>)
    requires Inv(s) && AllReconcile(s, at, ps, rs)
    ensures ValidZone(s.zone) && AllOld(s.zone, rs)
  {
    forall t | 0 <= t < |rs| ensures Old(s.zone, rs[t]) {
      assert Reconciles(s, at[t], ps[t], rs[t]);
      assert TickOk(s, s.ticks[at[t]]);
    }
  }

  /** In any reachable state, whatever reconciles are in flight: every interleaving of their turns in which all finish
      is a run, and it empties the hostname exactly when none has an address to add and every record is doomed. */
  lemma AnyLeadersInARun(s: State, at: seq<nat>, ps: seq<Pid>, rs: seq<Recon>, plays: seq<Play>)
    returns (ss: seq<State>, es: seq<Event>)
    requires Inv(s) && AllReconcile(s, at, ps, rs)
    requires PlaysOf(|rs|, plays) && AllFinished(Played(s.zone, rs, plays).1)
    ensures Run(ss, es) && ss[0] == s && OnlyTurns(es)
    ensures forall t :: 0 <= t < |at| ==> Reconciles(LastOf(ss), at[t], ps[t], Finished)
    ensures LastOf(ss).zone.records == map[] <==> AllToPut(rs) == {} && s.zone.records.Keys <= AllToGo(rs)
  {
    ss, es := PlayRun(s, at, ps, rs, plays);
    ReachableIsOld(s, at, ps, rs);
    LeadersEmptyTheHostname(s.zone, rs, plays);
    var ends := Played(s.zone, rs, plays).1;
    forall t | 0 <= t < |at| ensures Reconciles(LastOf(ss), at[t], ps[t], Finished) {
      assert ends[t].Finished? && Reconciles(LastOf(ss), at[t], ps[t], ends[t]);
    }
  }

  // --- Every interleaving can be completed --------------------------------------

  /** Turns until the loops are over. */
  function Left(r: Recon): nat {
    match r
    case Adding(d, page, i) => |page| + 2 + if i < |d| then |d| - i else 0
    case Deleting(_, page, j) => 1 + if j < |page| then |page| - j else 0
    case _ => 0
  }

  ghost predicate UnderWay(rs: seq<Recon>) { forall t :: 0 <= t < |rs| ==> Writing(rs[t]) || rs[t].Finished? }

  /** Leader `t` goes on to the end, every call answered. */
  lemma {:induction false} Finish(z: Zone, rs: seq<Recon>, plays: seq<Play>, t: nat) returns (more: seq<Play>)
    requires PlaysOf(|rs|, plays) && t < |rs| && UnderWay(Played(z, rs, plays).1)
    ensures PlaysOf(|rs|, more) && UnderWay(Played(z, rs, more).1) && Played(z, rs, more).1[t].Finished?
    ensures forall u :: 0 <= u < |rs| && Played(z, rs, plays).1[u].Finished? ==> Played(z, rs, more).1[u].Finished?
    decreases Left(Played(z, rs, plays).1[t])
  {
    var now := Played(z, rs, plays).1;
    if now[t].Finished? {
      more := plays;
    } else {
      more := plays + [Play(t, Replied)];
      assert more[..|plays|] == plays;
      assert Played(z, rs, more).1 == now[t := Onward(now[t])];
      more := Finish(z, rs, more, t);
    }
  }

  lemma {:induction false} FinishAll(z: Zone, rs: seq<Recon>, n: nat) returns (plays: seq<Play>)
    requires n <= |rs| && UnderWay(rs)
    ensures PlaysOf(|rs|, plays) && UnderWay(Played(z, rs, plays).1)
    ensures forall u :: 0 <= u < n ==> Played(z, rs, plays).1[u].Finished?
  {
    if n == 0 {
      plays := [];
    } else {
      plays := FinishAll(z, rs, n - 1);
      plays := Finish(z, rs, plays, n - 1);
    }
  }

  /** The first `n` turns of a single leader, every call answered. */
  lemma {:induction false} PlayedAlone(z: Zone, d: seq<Ip>, page: seq<Record>, n: nat) returns (plays: seq<Play>)
    requires n <= |d|
    ensures PlaysOf(1, plays)
    ensures Played(z, [Adding(d, page, 0)], plays) == (After(z, Adding(d, page, 0), Clean, n).0, [Adding(d, page, n)])
  {
    if n == 0 {
      plays := [];
    } else {
      var front := PlayedAlone(z, d, page, n - 1);
      plays := front + [Play(0, Replied)];
      assert plays[..|plays| - 1] == front;
      CleanProgress(z, page, d, Clean, n - 1);
      CleanProgress(z, page, d, Clean, n);
      assert [Adding(d, page, n - 1)][0 := Adding(d, page, n)] == [Adding(d, page, n)];
    }
  }

  // --- A process leads in its first tick ----------------------------------------

  /** Process `p` boots when the lock is free, leads in its first tick, and lists. */
  lemma BootLeadList(s: State, p: Pid, cfg: LbConfig, oks: seq<bool>, rows: seq<ZoneRow>, page: seq<Record>)
    returns (ss: seq<State>, es: seq<Event>)
    requires Inv(s) && p !in s.procs && s.consul.holder.None? && s.consul.now >= s.consul.delayUntil
    requires IsPage(s.zone, page) && PickZone(rows, cfg.zoneName).Some?
    requires SwitchedOn(cfg) && |oks| == |cfg.members|
    ensures Run(ss, es) && ss[0] == s && OneStart(es, p)
    ensures var l := LastOf(ss);
            && LeaderAt(l, p, Reconciling(Adding(Desired(cfg.members, oks), page, 0)))
            && l.zone == s.zone && l.procs.Keys == s.procs.Keys + {p}
            && |l.ticks| == |s.ticks| + 1 && l.ticks[..|s.ticks|] == s.ticks
  {
    ss := BootAndStart(s, p);
    es := [Boot(p), Start(p)];
    var l := LastOf(ss);
    var ss1, es1 := AnswerTick(l, p);
    var ss2, es2 := ListAsLeader(LastOf(ss1), p, cfg, oks, rows, page);
    var own, events := JoinOwn(l, ss1, es1, ss2, es2, |s.ticks|, 3, 4);
    EarlierTicksStand(l, own, events, |s.ticks|, 7, |events|);
    assert l.ticks[..|s.ticks|] == s.ticks;
    ss := Concat(ss, es, own, events);
    OneStartOwn(es, events, p, l, own, |s.ticks|, 7);
    es := es + events;
  }

  lemma BootAndStart(s: State, p: Pid) returns (ss: seq<State>)
    requires Inv(s) && p !in s.procs
    ensures Run(ss, [Boot(p), Start(p)]) && ss[0] == s
    ensures var l := LastOf(ss);
            && Started(l, p) && l.procs == s.procs[p := Proc(None, true)] && l.zone == s.zone && l.consul == s.consul
            && l.ticks == s.ticks + [Tick(p, Creating, None, None)]
  {
    ss := Extend([s], [], Boot(p));
    InvStep(s, Boot(p));
    var booted := LastOf(ss);
    ss := Extend(ss, [Boot(p)], Start(p));
    InvStep(booted, Start(p));
    assert [] + [Boot(p)] == [Boot(p)] && [Boot(p)] + [Start(p)] == [Boot(p), Start(p)];
  }

  /** Steps of later ticks leave the earlier ones as they were. */
  lemma {:induction false} EarlierTicksStand(l: State, ss: seq<State>, es: seq<Event>, first: nat, length: nat, n: nat)
    requires Own(l, ss, es, first, length) && n < |ss| && first <= |l.ticks|
    ensures |ss[n].ticks| >= first && ss[n].ticks[..first] == l.ticks[..first]
  {
    if n == 0 {
    } else {
      EarlierTicksStand(l, ss, es, first, length, n - 1);
      var s, e := ss[n - 1], es[n - 1];
      assert e in es && ss[n] == Next(s, e);
      forall t | 0 <= t < first ensures t < |ss[n].ticks| && ss[n].ticks[t] == s.ticks[t] { OthersStand(s, e, t); }
      if first > 0 { OthersStand(s, e, first - 1); }
    }
  }

  // --- Starts -------------------------------------------------------------------

  /** Only `p` starts a tick, and only one. */
  ghost predicate OneStart(es: seq<Event>, p: Pid) {
    && (forall e :: e in es && e.Start? ==> e.p == p)
    && forall j, k :: 0 <= j < k < |es| && es[j].Start? ==> es[k] != es[j]
  }

  lemma OneStartOwn(es: seq<Event>, events: seq<Event>, p: Pid, l: State, own: seq<State>, first: nat, length: nat)
    requires es == [Boot(p), Start(p)] && Own(l, own, events, first, length)
    ensures OneStart(es + events, p)
  {
    forall e | e in events ensures !e.Start? { assert Owner(e).Some?; }
  }

  /** No process starts twice. */
  ghost predicate Once(es: seq<Event>) { forall j, k :: 0 <= j < k < |es| && es[j].Start? ==> es[k] != es[j] }

  lemma QuietPart(a: seq<Event>, quiet: seq<Event>, b: seq<Event>)
    requires forall e :: e in quiet ==> !e.Start?
    ensures forall k :: |a| <= k < |a| + |quiet| ==> !(a + quiet + b)[k].Start?
  {
    forall k | |a| <= k < |a| + |quiet| ensures !(a + quiet + b)[k].Start? {
      assert (a + quiet + b)[k] == quiet[k - |a|] && quiet[k - |a|] in quiet;
    }
  }

  lemma OnceWith(a: seq<Event>, quiet: seq<Event>, b: seq<Event>, p: Pid, q: Pid)
    requires OneStart(a, p) && OneStart(b, q) && p != q && forall e :: e in quiet ==> !e.Start?
    ensures Once(a + quiet + b)
  {
    var all := a + quiet + b;
    QuietPart(a, quiet, b);
    forall j, k | 0 <= j < k < |all| && all[j].Start? ensures all[k] != all[j] {
      if j < |a| {
        assert a[j] in a;
        if k >= |a| + |quiet| { assert b[k - |a| - |quiet|] in b; }
      } else {
        assert all[j] == b[j - |a| - |quiet|] && all[k] == b[k - |a| - |quiet|];
      }
    }
  }

  lemma OnceMore(a: seq<Event>, quiet: seq<Event>)
    requires Once(a) && forall e :: e in quiet ==> !e.Start?
    ensures Once(a + quiet)
  {
    var all := a + quiet;
    QuietPart(a, quiet, []);
    assert a + quiet + [] == all;
    forall j, k | 0 <= j < k < |all| && all[j].Start? ensures all[k] != all[j] { assert j < |a|; }
  }

  // --- The runs -----------------------------------------------------------------

  /** The first process leads, lists, and takes `n` turns; then it hangs until its session and the lock delay are
      over. */
  lemma FirstLeaderHangs(s0: State, cfg: LbConfig, oks: seq<bool>, rows: seq<ZoneRow>, page: seq<Record>, n: nat)
    returns (ss: seq<State>, es: seq<Event>, quiet: seq<Event>)
    requires Init(s0) && IsPage(s0.zone, page) && PickZone(rows, cfg.zoneName).Some?
    requires SwitchedOn(cfg) && |oks| == |cfg.members|
    requires n <= |Desired(cfg.members, oks)|
    ensures OneStart(es, 0) && (forall e :: e in quiet ==> !e.Start?) && Run(ss, es + quiet) && ss[0] == s0
    ensures var l, d := LastOf(ss), Desired(cfg.members, oks);
            && Inv(l) && l.consul.holder.None? && l.consul.now >= l.consul.delayUntil
            && l.procs.Keys == {0} && |l.ticks| == 1 && Reconciles(l, 0, 0, Adding(d, page, n))
            && l.zone == After(s0.zone, Adding(d, page, 0), Clean, n).0
  {
    var d := Desired(cfg.members, oks);
    InitInv(s0);
    ss, es := BootLeadList(s0, 0, cfg, oks, rows, page);
    var plays := PlayedAlone(s0.zone, d, page, n);
    var ss1, es1 := PlayRun(LastOf(ss), [0], [0], [Adding(d, page, 0)], plays);
    InvRun(ss1, es1, |es1|);
    assert Reconciles(LastOf(ss1), 0, 0, Played(s0.zone, [Adding(d, page, 0)], plays).1[0]);
    var ss2, es2 := FreeTheLock(LastOf(ss1));
    ss1 := Concat(ss1, es1, ss2, es2);
    quiet := es1 + es2;
    ss := Concat(ss, es, ss1, quiet);
  }

  /** The second process leads and lists behind the first one. */
  lemma SecondLists(s: State, d: seq<Ip>, page: seq<Record>, n: nat, cfg: LbConfig, oks: seq<bool>, rows: seq<ZoneRow>,
                    page': seq<Record>)
    returns (ss: seq<State>, es: seq<Event>)
    requires Inv(s) && s.consul.holder.None? && s.consul.now >= s.consul.delayUntil && s.procs.Keys == {0}
    requires |s.ticks| == 1 && Reconciles(s, 0, 0, Adding(d, page, n))
    requires IsPage(s.zone, page') && PickZone(rows, cfg.zoneName).Some?
    requires SwitchedOn(cfg) && |oks| == |cfg.members|
    ensures Run(ss, es) && ss[0] == s && OneStart(es, 1) && LastOf(ss).zone == s.zone
    ensures AllReconcile(LastOf(ss), [0, 1], [0, 1], [Adding(d, page, n), Adding(Desired(cfg.members, oks), page', 0)])
  {
    ss, es := BootLeadList(s, 1, cfg, oks, rows, page');
    var l := LastOf(ss);
    assert l.ticks[..1][0] == s.ticks[0];
    var at, rs := [0, 1], [Adding(d, page, n), Adding(Desired(cfg.members, oks), page', 0)];
    forall t | 0 <= t < 2 ensures Reconciles(l, at[t], [0, 1][t], rs[t]) {}
  }

  /** Up to the second listing. */
  lemma BothList(s0: State, cfg: LbConfig, oks: seq<bool>, oks': seq<bool>, rows: seq<ZoneRow>, n: nat)
    returns (ss: seq<State>, es: seq<Event>, page: seq<Record>, page': seq<Record>)
    requires Init(s0) && |s0.zone.records| + n <= PAGE_SIZE
    requires SwitchedOn(cfg) && |oks| == |oks'| == |cfg.members|
    requires PickZone(rows, cfg.zoneName).Some? && n <= |Desired(cfg.members, oks)|
    ensures Run(ss, es) && Once(es) && ss[0] == s0 && IsPage(s0.zone, page)
    ensures var z, d, d' := LastOf(ss).zone, Desired(cfg.members, oks), Desired(cfg.members, oks');
            && z == After(s0.zone, Adding(d, page, 0), Clean, n).0 && |z.records| <= PAGE_SIZE && IsPage(z, page')
            && AllReconcile(LastOf(ss), [0, 1], [0, 1], [Adding(d, page, n), Adding(d', page', 0)])
  {
    var d := Desired(cfg.members, oks);
    page := SomePage(s0.zone);
    var first, quiet;
    ss, first, quiet := FirstLeaderHangs(s0, cfg, oks, rows, page, n);
    FewRecords(s0.zone, page, d, n);
    page' := SomePage(LastOf(ss).zone);
    var ss1, es1 := SecondLists(LastOf(ss), d, page, n, cfg, oks', rows, page');
    OnceWith(first, quiet, es1, 0, 1);
    ss := Concat(ss, first + quiet, ss1, es1);
    es := first + quiet + es1;
  }

  /** From every initial state with room for it on a page, for every two probe results and every number `n` of turns:
      there is a run, with the timers' rule kept, in which one process leads and hangs after `n` turns of its first
      loop, a second one takes over and lists, and both then finish. It leaves the hostname empty exactly when all that
      the second found healthy was served at first and not healthy to the first, and all that the first had not yet
      looked at was served at first. */
  lemma TwoLeadersInARun(s0: State, cfg: LbConfig, oks: seq<bool>, oks': seq<bool>, rows: seq<ZoneRow>, n: nat)
    returns (ss: seq<State>, es: seq<Event>)
    requires Init(s0) && |s0.zone.records| + n <= PAGE_SIZE
    requires SwitchedOn(cfg) && |oks| == |oks'| == |cfg.members|
    requires PickZone(rows, cfg.zoneName).Some? && n <= |Desired(cfg.members, oks)|
    ensures Run(ss, es) && TimerKept(ss, es) && ss[0] == s0
    ensures Reconciles(LastOf(ss), 0, 0, Finished) && Reconciles(LastOf(ss), 1, 1, Finished)
    ensures LastOf(ss).zone.records == map[]
            <==> && (forall ip :: Healthy(cfg.members, oks', ip) ==>
                       ip in Contents(s0.zone) && !Healthy(cfg.members, oks, ip))
                 && (forall ip :: ip in Desired(cfg.members, oks)[n..] ==> ip in Contents(s0.zone))
  {
    var d, d' := Desired(cfg.members, oks), Desired(cfg.members, oks');
    var page, page';
    ss, es, page, page' := BothList(s0, cfg, oks, oks', rows, n);
    var plays, ss2, es2 := BothFinish(LastOf(ss), [Adding(d, page, n), Adding(d', page', 0)]);
    OnceMore(es, es2);
    ss := Concat(ss, es, ss2, es2);
    es := es + es2;
    OnceIsOnTime(ss, es);
    EmptiedExactly(s0.zone, page, cfg.members, oks, oks', n, page', plays);
  }

  lemma OnceIsOnTime(ss: seq<State>, es: seq<Event>)
    requires |ss| == |es| + 1 && Once(es)
    ensures TimerKept(ss, es)
  {
  }

  /** `SecondListsLater` for two probe results of one configuration. */
  lemma EmptiedExactly(z0: Zone, page: seq<Record>, members: seq<Member>, oks: seq<bool>, oks': seq<bool>, n: nat,
                       page': seq<Record>, plays: seq<Play>)
    requires ValidZone(z0) && IsPage(z0, page) && |z0.records| <= PAGE_SIZE
    requires |members| == |oks| == |oks'| && n <= |Desired(members, oks)|
    requires var d, d' := Desired(members, oks), Desired(members, oks');
             var z := After(z0, Adding(d, page, 0), Clean, n).0;
             && IsPage(z, page') && |z.records| <= PAGE_SIZE && PlaysOf(2, plays)
             && AllFinished(Played(z, [Adding(d, page, n), Adding(d', page', 0)], plays).1)
    ensures var d, d' := Desired(members, oks), Desired(members, oks');
            var z := After(z0, Adding(d, page, 0), Clean, n).0;
            Played(z, [Adding(d, page, n), Adding(d', page', 0)], plays).0.records == map[]
            <==> && (forall ip :: Healthy(members, oks', ip) ==> ip in Contents(z0) && !Healthy(members, oks, ip))
                 && (forall ip :: ip in d[n..] ==> ip in Contents(z0))
  {
    SecondListsLater(z0, page, Desired(members, oks), Clean, n, page', Desired(members, oks'), plays);
    InHealthyTerms(z0, members, oks, oks');
  }

  lemma InHealthyTerms(z: Zone, members: seq<Member>, oks: seq<bool>, oks': seq<bool>)
    requires |members| == |oks| == |oks'|
    ensures (forall ip :: ip in Desired(members, oks') ==> ip in Contents(z) && ip !in Desired(members, oks))
            <==> forall ip :: Healthy(members, oks', ip) ==> ip in Contents(z) && !Healthy(members, oks, ip)
  {
    DesiredExact(members, oks);
    DesiredExact(members, oks');
  }

  /** Two leaders go on to the end. */
  lemma BothFinish(s: State, rs: seq<Recon>) returns (plays: seq<Play>, ss: seq<State>, es: seq<Event>)
    requires |rs| == 2 && UnderWay(rs) && AllReconcile(s, [0, 1], [0, 1], rs)
    ensures PlaysOf(2, plays) && AllFinished(Played(s.zone, rs, plays).1)
    ensures Run(ss, es) && ss[0] == s && (forall e :: e in es ==> !e.Start?)
    ensures LastOf(ss).zone == Played(s.zone, rs, plays).0
    ensures Reconciles(LastOf(ss), 0, 0, Finished) && Reconciles(LastOf(ss), 1, 1, Finished)
  {
    plays := FinishAll(s.zone, rs, 2);
    ss, es := PlayRun(s, [0, 1], [0, 1], rs, plays);
    var ends := Played(s.zone, rs, plays).1;
    assert ends[0].Finished? && ends[1].Finished?;
    var at := [0, 1];
    assert Reconciles(LastOf(ss), at[0], at[0], ends[0]) && Reconciles(LastOf(ss), at[1], at[1], ends[1]);
  }

  /** A turn adds at most one record. */
  lemma {:induction false} FewRecords(z: Zone, page: seq<Record>, d: seq<Ip>, n: nat)
    requires ValidZone(z) && n <= |d|
    ensures |After(z, Adding(d, page, 0), Clean, n).0.records| <= |z.records| + n
    ensures ValidZone(After(z, Adding(d, page, 0), Clean, n).0)
  {
    if n == 0 {
    } else {
      FewRecords(z, page, d, n - 1);
      CleanProgress(z, page, d, Clean, n - 1);
      AddsOne(After(z, Adding(d, page, 0), Clean, n - 1).0, page, d, n - 1);
    }
  }

  lemma AddsOne(z: Zone, page: seq<Record>, d: seq<Ip>, i: nat)
    requires ValidZone(z) && i < |d|
    ensures var z' := Step(z, Adding(d, page, i), Replied).0; ValidZone(z') && |z'.records| <= |z.records| + 1
  {
    var z' := Apply(z, Add(d[i]));
    assert z'.records.Keys == z.records.Keys + {z.nextId};
    assert |z'.records| == |z'.records.Keys| && |z.records| == |z.records.Keys|;
  }
}
