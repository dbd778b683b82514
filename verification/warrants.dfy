/** Where every change of the hostname's records comes from: in every run of any number of processes each write goes
    back to a tick that held the lock, read a configuration that is switched on, probed its members, found the zone and
    listed it, and the probe and the listing warrant the write (apps/dokploy/lb-controller.ts:137-204). */
module Warrants {
  import opened Ordering
  import opened Dns
  import opened Reconcile
  import opened Cluster
  import opened LeaderSafety

  /** A healthy address is added that was not listed, or a listed record of another address is deleted. */
  ghost predicate Warranted(w: Write, members: seq<Member>, oks: seq<bool>, page: seq<Record>)
    requires |members| == |oks|
  {
    match w
    case Add(ip) => Healthy(members, oks, ip) && forall r :: r in page ==> r.content != ip
    case Remove(id) => exists r :: r in page && r.id == id && !Healthy(members, oks, r.content)
  }

  /** What tick `t` did before its step `n`: it got the lock, read a configuration that is switched on, probed the
      members with the results `oks`, found the zone, and listed `page`, in this order. */
  datatype Steps = Steps(locked: nat, read: nat, probed: nat, found: nat, listed: nat)

  ghost predicate Did(ss: seq<State>, es: seq<Event>, n: nat, t: nat, k: Steps, cfg: LbConfig, oks: seq<bool>,
                      page: seq<Record>)
    requires |ss| == |es| + 1
  {
    && k.locked < k.read < k.probed < k.found < k.listed < n <= |es|
    && es[k.locked] == Acquired(t, Answered) && OwnGrant(ss[k.locked], ss[k.locked + 1], t)
    && es[k.read] == ConfigRead(t, Some(cfg)) && cfg.enabled && cfg.hostname != "" && cfg.cfToken != ""
    && es[k.probed] == Probed(t, oks) && |oks| == |cfg.members|
    && es[k.found].ZonesRead? && es[k.found].t == t && es[k.found].rows.Some?
    && PickZone(es[k.found].rows.value, cfg.zoneName).Some?
    && es[k.listed] == RecordsRead(t, Some(page)) && IsPage(ss[k.listed].zone, page)
  }

  // --- One step back from each point of a tick ----------------------------------

  ghost predicate AtPc(s: State, t: nat, pc: Pc) { t < |s.ticks| && s.ticks[t].pc == pc }

  /** A point after the lock is reached from where the tick was before, by a step of that tick or of another one. */
  lemma StepBack(s: State, e: Event, t: nat)
    requires Enabled(s, e) && t < |Next(s, e).ticks| && Entered(Next(s, e).ticks[t].pc)
    ensures Owner(e) != Some(t) ==> AtPc(s, t, Next(s, e).ticks[t].pc)
    ensures Owner(e) == Some(t) ==> t < |s.ticks|
  {
    if t < |s.ticks| && Owner(e) != Some(t) { OthersStand(s, e, t); }
  }

  lemma BackFromProbing(s: State, e: Event, t: nat, cfg: LbConfig)
    requires Enabled(s, e) && AtPc(Next(s, e), t, Probing(cfg))
    ensures AtPc(s, t, Probing(cfg))
            || (e == ConfigRead(t, Some(cfg)) && cfg.enabled && cfg.hostname != "" && cfg.cfToken != ""
                && AtPc(s, t, ReadingConfig))
  {
    StepBack(s, e, t);
  }

  lemma BackFromLookup(s: State, e: Event, t: nat, d: seq<Ip>, zoneName: string)
    requires Enabled(s, e) && AtPc(Next(s, e), t, LookingUp(d, zoneName))
    ensures AtPc(s, t, LookingUp(d, zoneName))
            || (t < |s.ticks| && s.ticks[t].pc.Probing? && e.Probed? && e.t == t
                && var cfg := s.ticks[t].pc.cfg;
                   |e.oks| == |cfg.members| && d == Desired(cfg.members, e.oks) && zoneName == cfg.zoneName)
  {
    StepBack(s, e, t);
  }

  lemma BackFromListing(s: State, e: Event, t: nat, d: seq<Ip>)
    requires Enabled(s, e) && AtPc(Next(s, e), t, Reconciling(Listing(d)))
    ensures AtPc(s, t, Reconciling(Listing(d)))
            || (t < |s.ticks| && s.ticks[t].pc.LookingUp? && s.ticks[t].pc.desired == d
                && e.ZonesRead? && e.t == t && e.rows.Some? && PickZone(e.rows.value, s.ticks[t].pc.zoneName).Some?)
  {
    StepBack(s, e, t);
  }

  ghost predicate Loops(s: State, t: nat, d: seq<Ip>, page: seq<Record>) {
    && t < |s.ticks| && s.ticks[t].pc.Reconciling? && Writing(s.ticks[t].pc.r)
    && s.ticks[t].pc.r.desired == d && s.ticks[t].pc.r.existing == page
  }

  lemma BackFromLoops(s: State, e: Event, t: nat, d: seq<Ip>, page: seq<Record>)
    requires Enabled(s, e) && Loops(Next(s, e), t, d, page)
    ensures Loops(s, t, d, page)
            || (e == RecordsRead(t, Some(page)) && AtPc(s, t, Reconciling(Listing(d))) && IsPage(s.zone, page))
  {
    StepBack(s, e, t);
    if Owner(e) == Some(t) && e.Turn? {
      assert Next(s, e).ticks[t].pc == Reconciling(Step(s.zone, s.ticks[t].pc.r, e.o).1);
    }
  }

  // --- The whole way back -------------------------------------------------------

  lemma {:induction false} ConfigOf(ss: seq<State>, es: seq<Event>, n: nat, t: nat, cfg: LbConfig) returns (k: nat)
    requires Run(ss, es) && Init(ss[0]) && n < |ss| && AtPc(ss[n], t, Probing(cfg))
    ensures k < n && es[k] == ConfigRead(t, Some(cfg)) && AtPc(ss[k], t, ReadingConfig)
    ensures cfg.enabled && cfg.hostname != "" && cfg.cfToken != ""
  {
    assert ss[n - 1 + 1] == Next(ss[n - 1], es[n - 1]);
    BackFromProbing(ss[n - 1], es[n - 1], t, cfg);
    if AtPc(ss[n - 1], t, Probing(cfg)) { k := ConfigOf(ss, es, n - 1, t, cfg); } else { k := n - 1; }
  }

  lemma {:induction false} ProbeOf(ss: seq<State>, es: seq<Event>, n: nat, t: nat, d: seq<Ip>, zoneName: string)
    returns (k: nat, cfg: LbConfig)
    requires Run(ss, es) && Init(ss[0]) && n < |ss| && AtPc(ss[n], t, LookingUp(d, zoneName))
    ensures k < n && es[k].Probed? && es[k].t == t && AtPc(ss[k], t, Probing(cfg))
    ensures |es[k].oks| == |cfg.members| && d == Desired(cfg.members, es[k].oks) && zoneName == cfg.zoneName
  {
    assert ss[n - 1 + 1] == Next(ss[n - 1], es[n - 1]);
    BackFromLookup(ss[n - 1], es[n - 1], t, d, zoneName);
    if AtPc(ss[n - 1], t, LookingUp(d, zoneName)) {
      k, cfg := ProbeOf(ss, es, n - 1, t, d, zoneName);
    } else {
      k, cfg := n - 1, ss[n - 1].ticks[t].pc.cfg;
    }
  }

  lemma {:induction false} LookupOf(ss: seq<State>, es: seq<Event>, n: nat, t: nat, d: seq<Ip>)
    returns (k: nat, zoneName: string)
    requires Run(ss, es) && Init(ss[0]) && n < |ss| && AtPc(ss[n], t, Reconciling(Listing(d)))
    ensures k < n && es[k].ZonesRead? && es[k].t == t && AtPc(ss[k], t, LookingUp(d, zoneName))
    ensures es[k].rows.Some? && PickZone(es[k].rows.value, zoneName).Some?
  {
    assert ss[n - 1 + 1] == Next(ss[n - 1], es[n - 1]);
    BackFromListing(ss[n - 1], es[n - 1], t, d);
    if AtPc(ss[n - 1], t, Reconciling(Listing(d))) {
      k, zoneName := LookupOf(ss, es, n - 1, t, d);
    } else {
      k, zoneName := n - 1, ss[n - 1].ticks[t].pc.zoneName;
    }
  }

  lemma {:induction false} ListingOf(ss: seq<State>, es: seq<Event>, n: nat, t: nat, d: seq<Ip>, page: seq<Record>)
    returns (k: nat)
    requires Run(ss, es) && Init(ss[0]) && n < |ss| && Loops(ss[n], t, d, page)
    ensures k < n && es[k] == RecordsRead(t, Some(page)) && AtPc(ss[k], t, Reconciling(Listing(d)))
    ensures IsPage(ss[k].zone, page)
  {
    assert ss[n - 1 + 1] == Next(ss[n - 1], es[n - 1]);
    BackFromLoops(ss[n - 1], es[n - 1], t, d, page);
    if Loops(ss[n - 1], t, d, page) { k := ListingOf(ss, es, n - 1, t, d, page); } else { k := n - 1; }
  }

  /** A tick in its loops has done all that. */
  lemma LoopsAfterAll(ss: seq<State>, es: seq<Event>, n: nat, t: nat, d: seq<Ip>, page: seq<Record>)
    returns (k: Steps, cfg: LbConfig, oks: seq<bool>)
    requires Run(ss, es) && Init(ss[0]) && n < |ss| && Loops(ss[n], t, d, page)
    ensures Did(ss, es, n, t, k, cfg, oks, page) && d == Desired(cfg.members, oks)
  {
    var listed := ListingOf(ss, es, n, t, d, page);
    var found, zoneName := LookupOf(ss, es, listed, t, d);
    var probed;
    probed, cfg := ProbeOf(ss, es, found, t, d, zoneName);
    oks := es[probed].oks;
    var read := ConfigOf(ss, es, probed, t, cfg);
    EntryWasGranted(ss, es, read, t);
    var locked :| 0 <= locked < read && es[locked] == Acquired(t, Answered) && OwnGrant(ss[locked], ss[locked + 1], t);
    k := Steps(locked, read, probed, found, listed);
  }

  // --- Every write, when it takes effect ----------------------------------------

  lemma WriteIsWarranted(r: Recon, members: seq<Member>, oks: seq<bool>)
    requires |members| == |oks| && Writing(r) && r.desired == Desired(members, oks) && NextWrite(r).Some?
    ensures Warranted(NextWrite(r).value, members, oks, r.existing)
  {
    DesiredExact(members, oks);
    if r.Deleting? { assert r.existing[r.j] in r.existing; }
  }

  /** The write that tick `t` sends in step `m`, answered or not. */
  ghost predicate Sends(ss: seq<State>, es: seq<Event>, m: nat, t: nat, w: Write)
    requires Run(ss, es)
  {
    && m < |es| && es[m].Turn? && es[m].t == t
    && NextWrite(ss[m].ticks[t].pc.r) == Some(w)
  }

  /** A write is on the way only if a tick has sent it. */
  lemma {:induction false} LateWasSent(ss: seq<State>, es: seq<Event>, n: nat, w: Write) returns (m: nat, t: nat)
    requires Run(ss, es) && Init(ss[0]) && n < |ss| && w in ss[n].zone.late
    ensures m < n && Sends(ss, es, m, t, w)
  {
    var s, e := ss[n - 1], es[n - 1];
    assert ss[n - 1 + 1] == Next(s, e);
    if w in s.zone.late {
      m, t := LateWasSent(ss, es, n - 1, w);
    } else {
      m, t := n - 1, e.t;
    }
  }

  /** The write that takes effect when the records change. */
  ghost predicate TakesEffect(z: Zone, z': Zone, w: Write) {
    match w
    case Add(ip) => z.nextId !in z.records && z'.records == z.records[z.nextId := ip]
    case Remove(id) => z'.records == z.records - {id}
  }

  lemma EffectOfStep(s: State, e: Event) returns (w: Write)
    requires Inv(s) && Enabled(s, e) && Next(s, e).zone.records != s.zone.records
    ensures TakesEffect(s.zone, Next(s, e).zone, w)
    ensures (e.Turn? && NextWrite(s.ticks[e.t].pc.r) == Some(w)) || e == Delivered(w)
  {
    if e.Turn? {
      w := TurnEffect(s.zone, s.ticks[e.t].pc.r, e.o);
    } else {
      if !e.Delivered? { ZoneStands(s, e); }
      w := e.w;
    }
  }

  lemma TurnEffect(z: Zone, r: Recon, o: Outcome) returns (w: Write)
    requires ValidZone(z) && Step(z, r, o).0.records != z.records
    ensures NextWrite(r) == Some(w) && TakesEffect(z, Step(z, r, o).0, w)
  {
    w := NextWrite(r).value;
  }

  /** Only turns and deliveries touch the zone. */
  lemma ZoneStands(s: State, e: Event)
    requires Enabled(s, e) && !e.Turn? && !e.Delivered?
    ensures Next(s, e).zone == s.zone
  {
  }

  /** In every run, whoever else runs, crashes, overlaps or is late: when the records change, one write takes effect, a
      tick has sent it, and before that the tick had got the lock, read a configuration that is switched on, probed, and
      listed; and its own probe and listing warrant the write. */
  lemma EveryChangeIsWarranted(ss: seq<State>, es: seq<Event>, n: nat)
    returns (w: Write, m: nat, t: nat, k: Steps, cfg: LbConfig, oks: seq<bool>, page: seq<Record>)
    requires Run(ss, es) && Init(ss[0]) && n < |es| && ss[n + 1].zone.records != ss[n].zone.records
    ensures TakesEffect(ss[n].zone, ss[n + 1].zone, w) && m <= n && Sends(ss, es, m, t, w)
    ensures Did(ss, es, m, t, k, cfg, oks, page) && Warranted(w, cfg.members, oks, page)
  {
    InitInv(ss[0]);
    InvRun(ss, es, n);
    w := EffectOfStep(ss[n], es[n]);
    if es[n].Turn? { m, t := n, es[n].t; } else { m, t := LateWasSent(ss, es, n, w); }
    var r := ss[m].ticks[t].pc.r;
    page := r.existing;
    k, cfg, oks := LoopsAfterAll(ss, es, m, t, r.desired, page);
    WriteIsWarranted(r, cfg.members, oks);
  }

  /** A configuration is read that is switched on. */
  ghost predicate ReadsOn(e: Event) {
    e.ConfigRead? && e.cfg.Some? && e.cfg.value.enabled && e.cfg.value.hostname != "" && e.cfg.value.cfToken != ""
  }

  ghost predicate NeverOn(es: seq<Event>) { forall i :: 0 <= i < |es| ==> !ReadsOn(es[i]) }

  lemma NothingReadNothingChanged(ss: seq<State>, es: seq<Event>, n: nat)
    requires Run(ss, es) && Init(ss[0]) && n < |es| && NeverOn(es)
    ensures ss[n + 1].zone.records == ss[n].zone.records
  {
    if ss[n + 1].zone.records != ss[n].zone.records {
      var w, m, t, k, cfg, oks, page := EveryChangeIsWarranted(ss, es, n);
      assert false;
    }
  }

  lemma {:induction false} SameThroughout(ss: seq<State>, n: nat)
    requires n < |ss| && forall i :: 0 <= i < n ==> ss[i + 1].zone.records == ss[i].zone.records
    ensures ss[n].zone.records == ss[0].zone.records
  {
    if n == 0 {
    } else {
      SameThroughout(ss, n - 1);
      assert ss[n - 1 + 1].zone.records == ss[n - 1].zone.records;
    }
  }

  /** So nothing changes in a run in which no configuration that is read is switched on. */
  lemma SwitchedOffStaysUntouched(ss: seq<State>, es: seq<Event>, n: nat)
    requires Run(ss, es) && Init(ss[0]) && n < |ss| && NeverOn(es)
    ensures ss[n].zone.records == ss[0].zone.records
  {
    forall i | 0 <= i < n ensures ss[i + 1].zone.records == ss[i].zone.records {
      NothingReadNothingChanged(ss, es, i);
    }
    SameThroughout(ss, n);
  }
}
