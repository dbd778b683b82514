/** The guard of `collectMetrics`: any number of concurrent calls step through lock, check, set, unlock, the body,
    and the deferred lock, clear, unlock (apps/monitoring/containers/monitor.go:81-111). */
module Collector {
  import opened Ordering

  datatype Pc =
    | Calling     // about to lock
    | Checking    // holds the mutex, about to test isRunning
    | Skipping    // holds the mutex, about to unlock and return
    | Setting     // holds the mutex, about to set isRunning
    | Entering    // holds the mutex, isRunning set, about to unlock
    | Body
    | Deferred    // left the body by any path, about to lock
    | Clearing    // holds the mutex, about to clear isRunning
    | Leaving     // holds the mutex, isRunning cleared, about to unlock
    | Done

  datatype State = State(calls: seq<Pc>, mutex: Option<nat>, isRunning: bool)

  /** A new call arrives, or call `k` takes its next step. From the body that step is any exit: an error of the
      command, empty output, the end of the loop, or a panic. */
  datatype Event = Arrive | Step(k: nat)

  predicate Enabled(s: State, e: Event) {
    match e
    case Arrive => true
    case Step(k) =>
      k < |s.calls| && s.calls[k] != Done
      && (s.calls[k].Calling? || s.calls[k].Deferred? ==> s.mutex == None)
  }

  function Next(s: State, e: Event): State
    requires Enabled(s, e)
  {
    match e
    case Arrive => s.(calls := s.calls + [Calling])
    case Step(k) =>
      match s.calls[k]
      case Calling => s.(calls := s.calls[k := Checking], mutex := Some(k))
      case Checking => s.(calls := s.calls[k := if s.isRunning then Skipping else Setting])
      case Skipping => s.(calls := s.calls[k := Done], mutex := None)
      case Setting => s.(calls := s.calls[k := Entering], isRunning := true)
      case Entering => s.(calls := s.calls[k := Body], mutex := None)
      case Body => s.(calls := s.calls[k := Deferred])
      case Deferred => s.(calls := s.calls[k := Clearing], mutex := Some(k))
      case Clearing => s.(calls := s.calls[k := Leaving], isRunning := false)
      case Leaving => s.(calls := s.calls[k := Done], mutex := None)
      case Done => s
  }

  ghost predicate Run(ss: seq<State>, es: seq<Event>) {
    && |ss| == |es| + 1
    && forall i :: 0 <= i < |es| ==> Enabled(ss[i], es[i]) && ss[i + 1] == Next(ss[i], es[i])
  }

  const INIT := State([], None, false)

  predicate HoldsMutex(pc: Pc) {
    pc.Checking? || pc.Skipping? || pc.Setting? || pc.Entering? || pc.Clearing? || pc.Leaving?
  }

  /** Between setting and clearing `isRunning`. */
  predicate Collecting(pc: Pc) { pc.Entering? || pc.Body? || pc.Deferred? || pc.Clearing? }

  ghost predicate MutexOk(s: State) {
    && (forall k :: 0 <= k < |s.calls| ==> (HoldsMutex(s.calls[k]) <==> s.mutex == Some(k)))
    && (s.mutex.Some? ==> s.mutex.value < |s.calls|)
  }

  ghost predicate Inv(s: State) {
    && MutexOk(s)
    && (forall k :: 0 <= k < |s.calls| && Collecting(s.calls[k]) ==> s.isRunning)
    && (s.isRunning ==> exists k :: 0 <= k < |s.calls| && Collecting(s.calls[k]))
    && (forall k :: 0 <= k < |s.calls| && s.calls[k].Setting? ==> !s.isRunning)
    && (forall i, j :: 0 <= i < j < |s.calls| ==> !(Collecting(s.calls[i]) && Collecting(s.calls[j])))
  }

  lemma MutexStep(s: State, e: Event)
    requires MutexOk(s) && Enabled(s, e)
    ensures MutexOk(Next(s, e))
  {
  }

  lemma RunningStep(s: State, e: Event)
    requires Inv(s) && Enabled(s, e)
    ensures var s' := Next(s, e);
            s'.isRunning ==> exists k :: 0 <= k < |s'.calls| && Collecting(s'.calls[k])
  {
    var s' := Next(s, e);
    if s.isRunning {
      var k :| 0 <= k < |s.calls| && Collecting(s.calls[k]);
      if e != Step(k) || !s.calls[k].Clearing? { assert Collecting(s'.calls[k]); }
    } else if e.Step? && s.calls[e.k].Setting? {
      assert Collecting(s'.calls[e.k]);
    }
  }

  lemma InvStep(s: State, e: Event)
    requires Inv(s) && Enabled(s, e)
    ensures Inv(Next(s, e))
  {
    MutexStep(s, e);
    RunningStep(s, e);
  }

  lemma {:induction false} InvRun(ss: seq<State>, es: seq<Event>, n: nat)
    requires Run(ss, es) && ss[0] == INIT && n < |ss|
    ensures Inv(ss[n])
  {
    if n == 0 {
    } else {
      InvRun(ss, es, n - 1);
      InvStep(ss[n - 1], es[n - 1]);
    }
  }

  /** In every reachable state at most one call collects, `isRunning` is true exactly while one does,
      and the mutex is held by at most one call. */
  lemma MutualExclusion(ss: seq<State>, es: seq<Event>, n: nat, i: nat, j: nat)
    requires Run(ss, es) && ss[0] == INIT && n < |ss|
    requires i < |ss[n].calls| && j < |ss[n].calls|
    ensures Collecting(ss[n].calls[i]) && Collecting(ss[n].calls[j]) ==> i == j
    ensures HoldsMutex(ss[n].calls[i]) && HoldsMutex(ss[n].calls[j]) ==> i == j
    ensures ss[n].isRunning <==> exists k :: 0 <= k < |ss[n].calls| && Collecting(ss[n].calls[k])
  {
    InvRun(ss, es, n);
  }

  /** The call waits to find the flag set, or has found it set. */
  predicate TurnedAway(s: State, k: nat) {
    k < |s.calls| && ((s.calls[k].Checking? && s.isRunning) || s.calls[k].Skipping? || s.calls[k].Done?)
  }

  lemma TurnedAwayStep(s: State, e: Event, k: nat)
    requires Inv(s) && Enabled(s, e) && TurnedAway(s, k)
    ensures TurnedAway(Next(s, e), k)
  {
    if s.calls[k].Checking? { assert s.mutex == Some(k); }
  }

  /** A call that reaches its check while another collects never collects, whatever the others do in the meantime. */
  lemma {:induction false} SecondCallSkips(ss: seq<State>, es: seq<Event>, k: nat, a: nat, b: nat)
    requires Run(ss, es) && ss[0] == INIT && a <= b < |ss|
    requires k < |ss[a].calls| && ss[a].calls[k].Checking? && ss[a].isRunning
    ensures TurnedAway(ss[b], k) && !Collecting(ss[b].calls[k])
  {
    if a == b {
    } else {
      SecondCallSkips(ss, es, k, a, b - 1);
      InvRun(ss, es, b - 1);
      TurnedAwayStep(ss[b - 1], es[b - 1], k);
    }
  }

  // --- The guard becomes available again ----------------------------------------

  function LastOf(ss: seq<State>): State
    requires ss != []
  {
    ss[|ss| - 1]
  }

  /** A run from `s` of at most `n` steps that reaches the last state of `ss`. */
  ghost predicate Within(s: State, ss: seq<State>, es: seq<Event>, n: nat) {
    Run(ss, es) && ss[0] == s && |es| <= n && Inv(LastOf(ss))
  }

  lemma Then(s: State, ss: seq<State>, es: seq<Event>, n: nat, e: Event) returns (ss': seq<State>, es': seq<Event>)
    requires Within(s, ss, es, n) && Enabled(LastOf(ss), e)
    ensures Within(s, ss', es', n + 1) && LastOf(ss') == Next(LastOf(ss), e)
  {
    InvStep(LastOf(ss), e);
    ss', es' := ss + [Next(LastOf(ss), e)], es + [e];
  }

  /** Steps a holder of the mutex still needs to release it. */
  function ToRelease(pc: Pc): nat {
    match pc
    case Checking => 3
    case Setting => 2
    case Clearing => 2
    case Skipping => 1
    case Entering => 1
    case Leaving => 1
    case _ => 0
  }

  lemma {:induction false} ReleaseMutex(s: State, ss: seq<State>, es: seq<Event>, n: nat)
    returns (ss': seq<State>, es': seq<Event>)
    requires Within(s, ss, es, n)
    ensures var l := LastOf(ss); Within(s, ss', es', n + if l.mutex.Some? then ToRelease(l.calls[l.mutex.value]) else 0)
    ensures LastOf(ss').mutex == None
    decreases var l := LastOf(ss); if l.mutex.Some? then ToRelease(l.calls[l.mutex.value]) else 0
  {
    var l := LastOf(ss);
    if l.mutex.None? { return ss, es; }
    var k := l.mutex.value;
    ss', es' := Then(s, ss, es, n, Step(k));
    ss', es' := ReleaseMutex(s, ss', es', n + 1);
  }

  /** With the mutex free the collecting call that has left the body clears the flag in three steps. */
  lemma LeaveBody(s: State, ss: seq<State>, es: seq<Event>, n: nat, k: nat) returns (ss': seq<State>, es': seq<Event>)
    requires Within(s, ss, es, n) && LastOf(ss).mutex == None
    requires k < |LastOf(ss).calls| && LastOf(ss).calls[k].Deferred?
    ensures Within(s, ss', es', n + 3) && LastOf(ss').mutex == None && !LastOf(ss').isRunning
  {
    ss', es' := Then(s, ss, es, n, Step(k));
    ss', es' := Then(s, ss', es', n + 1, Step(k));
    ss', es' := Then(s, ss', es', n + 2, Step(k));
  }

  /** From every reachable state, whoever collects and however that call leaves the body, at most seven steps make the
      mutex free and `isRunning` false. */
  lemma GuardIsReleased(s: State) returns (ss: seq<State>, es: seq<Event>)
    requires Inv(s)
    ensures Within(s, ss, es, 7) && LastOf(ss).mutex == None && !LastOf(ss).isRunning
  {
    ss, es := ReleaseMutex(s, [s], [], 0);
    var l := LastOf(ss);
    if l.isRunning {
      var k :| 0 <= k < |l.calls| && Collecting(l.calls[k]);
      assert l.calls[k].Body? || l.calls[k].Deferred?;
      if l.calls[k].Body? { ss, es := Then(s, ss, es, 3, Step(k)); }
      ss, es := LeaveBody(s, ss, es, 4, k);
    }
  }

  /** So a new call can always come to collect: five more steps take it into the body. */
  lemma NextCallCollects(s: State) returns (ss: seq<State>, es: seq<Event>, k: nat)
    requires Inv(s)
    ensures Within(s, ss, es, 12) && k < |LastOf(ss).calls| && LastOf(ss).calls[k] == Body
  {
    ss, es := GuardIsReleased(s);
    k := |LastOf(ss).calls|;
    ss, es := Then(s, ss, es, 7, Arrive);
    ss, es := Then(s, ss, es, 8, Step(k));
    ss, es := Then(s, ss, es, 9, Step(k));
    ss, es := Then(s, ss, es, 10, Step(k));
    ss, es := Then(s, ss, es, 11, Step(k));
  }
}
