/**
 Any number of resilient scans of one scanner, running concurrently over the shared breaker.
 Each action is one atomic step of one call; the calls' steps interleave arbitrarily.
 */
module ScannerCalls {
  import opened Wrappers
  import opened Counting
  import opened Breaker
  import opened Retry

  datatype Phase = Ready | Scanning | Reporting | Sleeping | Returned(result: CallResult)

  /** `probe` is the half-open episode that admitted the call; `reports` counts its outcomes told to the breaker. */
  datatype ScanCall = ScanCall(phase: Phase, outcomes: seq<ScanOutcome>, probe: Option<nat>, reports: nat)

  /** `episode` numbers the half-open episodes begun so far. */
  datatype System = System(circuit: Circuit, calls: seq<ScanCall>, episode: nat)

  datatype Action =
    | Start(i: nat, at: int)
    | Scan(i: nat, outcome: ScanOutcome)
    | Report(i: nat, at: int)
    | Wake(i: nat)
    | Interrupt(i: nat)

  ghost predicate Enabled(s: System, a: Action) {
    && a.i < |s.calls|
    && var phase := s.calls[a.i].phase;
       match a
       case Start(_, _) => phase == Ready
       case Scan(_, _) => phase == Scanning
       case Report(_, _) => phase == Reporting && s.calls[a.i].outcomes != []
       case Wake(_) => phase == Sleeping
       case Interrupt(_) => phase == Sleeping
  }

  function Last(c: ScanCall): ScanOutcome
    requires c.outcomes != []
  {
    c.outcomes[|c.outcomes| - 1]
  }

  ghost function Step(p: Policy, max: int, s: System, a: Action): System
    requires Enabled(s, a)
  {
    var c := s.calls[a.i];
    match a
    case Start(i, at) =>
      var (circuit, admitted) := Allow(p, s.circuit, at);
      var episode := if s.circuit.state == Open && circuit.state == HalfOpen then s.episode + 1 else s.episode;
      var started := if admitted
                     then c.(phase := Scanning, probe := if circuit.state == HalfOpen then Some(episode) else None)
                     else c.(phase := Returned(Refused));
      System(circuit, s.calls[i := started], episode)
    case Scan(i, outcome) =>
      var outcomes := c.outcomes + [outcome];
      var phase := if WorthRetrying(outcome) && |outcomes| != max then Sleeping else Reporting;
      s.(calls := s.calls[i := c.(phase := phase, outcomes := outcomes)])
    case Report(i, at) =>
      var last := Last(c);
      var done := c.(phase := Returned(if last.ScanOk? then Succeeded else FailedWith(last.cls)),
          reports := c.reports + 1);
      var circuit := if last.ScanOk? then OnSuccess(s.circuit) else OnFailure(p, s.circuit, at);
      s.(circuit := circuit, calls := s.calls[i := done])
    case Wake(i) => s.(calls := s.calls[i := c.(phase := Scanning)])
    case Interrupt(i) => s.(calls := s.calls[i := c.(phase := Returned(Interrupted))])
  }

  function Initial(n: nat): System {
    System(FRESH, seq(n, _ => ScanCall(Ready, [], None, 0)), 0)
  }

  // --- executions ---

  /** The state the actions lead to, or None when some action was not enabled in its turn. */
  ghost function Execute(p: Policy, max: int, s: System, actions: seq<Action>): Option<System> {
    if actions == [] then Some(s)
    else
      match Execute(p, max, s, actions[..|actions| - 1])
      case None => None
      case Some(t) =>
        if Enabled(t, actions[|actions| - 1]) then Some(Step(p, max, t, actions[|actions| - 1])) else None
  }

  ghost predicate Reaches(p: Policy, max: int, n: nat, actions: seq<Action>, s: System) {
    Execute(p, max, Initial(n), actions) == Some(s)
  }

  // --- the invariant ---

  function ProbesOf(calls: seq<ScanCall>, episode: nat): nat {
    Count(calls, (c: ScanCall) => c.probe == Some(episode))
  }

  function InterruptedOf(calls: seq<ScanCall>, episode: nat): nat {
    Count(calls, (c: ScanCall) => c.probe == Some(episode) && c.phase == Returned(Interrupted))
  }

  predicate InFlight(c: ScanCall) {
    c.phase == Scanning || c.phase == Reporting || c.phase == Sleeping
  }

  /** Each call by itself: bounded attempts, and exactly one report unless refused or interrupted. */
  ghost predicate CallOk(max: int, c: ScanCall) {
    && (match c.phase
        case Ready => c.outcomes == []
        case Scanning => |c.outcomes| < max && forall o :: o in c.outcomes ==> WorthRetrying(o)
        case Sleeping => 1 <= |c.outcomes| < max && forall o :: o in c.outcomes ==> WorthRetrying(o)
        case Reporting =>
          && 1 <= |c.outcomes| <= max
          && (forall i :: 0 <= i < |c.outcomes| - 1 ==> WorthRetrying(c.outcomes[i]))
          && (WorthRetrying(Last(c)) ==> |c.outcomes| == max)
        case Returned(result) => ProperReturn(max, c.outcomes, result))
    && c.reports == (if c.phase.Returned? && (c.phase.result.Succeeded? || c.phase.result.FailedWith?) then 1 else 0)
    && (c.phase == Ready || c.phase == Returned(Refused) ==> c.probe == None)
  }

  /** While half-open, the admissions counted are the episode's calls, none of which has reported. */
  ghost predicate ProbesPending(s: System) {
    s.circuit.state == HalfOpen ==>
      && s.circuit.halfOpenInFlight == ProbesOf(s.calls, s.episode)
      && forall i :: 0 <= i < |s.calls| && s.calls[i].probe == Some(s.episode) ==>
           InFlight(s.calls[i]) || s.calls[i].phase == Returned(Interrupted)
  }

  ghost predicate Inv(p: Policy, max: int, s: System) {
    && WellFormed(p, s.circuit)
    && (forall i :: 0 <= i < |s.calls| ==> CallOk(max, s.calls[i]))
    && (forall i :: 0 <= i < |s.calls| && s.calls[i].probe.Some? ==> s.calls[i].probe.value <= s.episode)
    && ProbesPending(s)
  }

  lemma CallStep(p: Policy, max: int, s: System, a: Action)
    requires Enabled(s, a) && max >= 1 && CallOk(max, s.calls[a.i])
    ensures CallOk(max, Step(p, max, s, a).calls[a.i])
  {
  }

  lemma StepKeepsProbes(p: Policy, max: int, s: System, a: Action)
    requires Positive(p) && max >= 1 && Inv(p, max, s) && Enabled(s, a)
    ensures ProbesPending(Step(p, max, s, a))
  {
    var t := Step(p, max, s, a);
    CountUpdate(s.calls, (c: ScanCall) => c.probe == Some(t.episode), a.i, t.calls[a.i]);
    if t.episode > s.episode {
      CountBounds(s.calls, (c: ScanCall) => c.probe == Some(t.episode));
    }
    assert CallOk(max, s.calls[a.i]);
  }

  lemma StepKeepsInv(p: Policy, max: int, s: System, a: Action)
    requires Positive(p) && max >= 1 && Inv(p, max, s) && Enabled(s, a)
    ensures Inv(p, max, Step(p, max, s, a))
    ensures |Step(p, max, s, a).calls| == |s.calls|
  {
    CallStep(p, max, s, a);
    StepKeepsProbes(p, max, s, a);
    if a.Start? {
      NextKeepsWellFormed(p, s.circuit, AllowAt(a.at));
    } else if a.Report? {
      NextKeepsWellFormed(p, s.circuit, if Last(s.calls[a.i]).ScanOk? then Success else FailureAt(a.at));
    }
  }

  lemma {:induction false} InvAlways(p: Policy, max: int, n: nat, actions: seq<Action>, s: System)
    requires Positive(p) && max >= 1 && Reaches(p, max, n, actions, s)
    ensures Inv(p, max, s) && |s.calls| == n
  {
    if actions == [] {
    } else {
      var t := Execute(p, max, Initial(n), actions[..|actions| - 1]).value;
      InvAlways(p, max, n, actions[..|actions| - 1], t);
      StepKeepsInv(p, max, t, actions[|actions| - 1]);
    }
  }

  /**
   Outcome accounting: a call that has returned made at most `max` attempts, all but the last
   worth retrying, and told the breaker exactly once, unless it was refused or interrupted.
   */
  lemma OutcomeAccounting(p: Policy, max: int, n: nat, actions: seq<Action>, s: System, c: ScanCall)
    requires Positive(p) && max >= 1 && Reaches(p, max, n, actions, s) && c in s.calls
    ensures c.reports <= 1
    ensures c.phase.Returned? ==>
              && ProperReturn(max, c.outcomes, c.phase.result)
              && (c.reports == 0 <==> c.phase.result.Refused? || c.phase.result.Interrupted?)
  {
    InvAlways(p, max, n, actions, s);
    assert CallOk(max, c);
  }

  // --- no stuck half-open circuit ---

  ghost predicate Quiescent(s: System) {
    forall c :: c in s.calls ==> !InFlight(c)
  }

  /** The circuit refuses at every future instant. */
  ghost predicate Stuck(p: Policy, c: Circuit) {
    forall t: int :: !Admits(p, c, AllowAt(t))
  }

  /** While half-open, the calls of the episode are those in flight and those interrupted. */
  lemma HalfOpenCallsPending(p: Policy, max: int, s: System)
    requires Inv(p, max, s) && s.circuit.state == HalfOpen
    ensures InterruptedOf(s.calls, s.episode) == 0 ==>
              exists c :: c in s.calls && c.probe == Some(s.episode) && InFlight(c)
    ensures Quiescent(s) ==> InterruptedOf(s.calls, s.episode) == s.circuit.halfOpenInFlight
  {
    var probe := (c: ScanCall) => c.probe == Some(s.episode);
    var interrupted := (c: ScanCall) => c.probe == Some(s.episode) && c.phase == Returned(Interrupted);
    CountBounds(s.calls, probe);
    CountBounds(s.calls, interrupted);
    if Quiescent(s) {
      CountImplies(s.calls, probe, interrupted);
      CountImplies(s.calls, interrupted, probe);
    }
  }

  /**
   Once every call has returned, the circuit refuses for ever exactly when it is half-open
   and all halfOpenMaxRequests probes of the episode had their backoff interrupted.
   */
  lemma StuckExactly(p: Policy, max: int, n: nat, actions: seq<Action>, s: System)
    requires Positive(p) && max >= 1 && Reaches(p, max, n, actions, s) && Quiescent(s)
    ensures Stuck(p, s.circuit) <==>
            s.circuit.state == HalfOpen && InterruptedOf(s.calls, s.episode) == p.halfOpenMaxRequests
  {
    InvAlways(p, max, n, actions, s);
    match s.circuit.state {
      case Closed =>
        assert Admits(p, s.circuit, AllowAt(0));
      case Open =>
        assert Admits(p, s.circuit, AllowAt(s.circuit.openedAt + p.openDuration));
      case HalfOpen =>
        HalfOpenCallsPending(p, max, s);
        assert Admits(p, s.circuit, AllowAt(0)) <==> s.circuit.halfOpenInFlight < p.halfOpenMaxRequests;
    }
  }

  lemma {:induction false} InterruptionsAreActions(p: Policy, max: int, n: nat, actions: seq<Action>, s: System)
    requires Reaches(p, max, n, actions, s)
    requires forall a :: a in actions ==> !a.Interrupt?
    ensures forall c :: c in s.calls ==> c.phase != Returned(Interrupted)
  {
    if actions == [] {
    } else {
      var t := Execute(p, max, Initial(n), actions[..|actions| - 1]).value;
      InterruptionsAreActions(p, max, n, actions[..|actions| - 1], t);
      assert actions[|actions| - 1] in actions;
    }
  }

  /**
   Without interrupted backoffs every call of a half-open episode is still in flight, and there
   is one; so once every call has returned the circuit is closed or open, and admits again
   after openDuration.
   */
  lemma NoStuckHalfOpen(p: Policy, max: int, n: nat, actions: seq<Action>, s: System)
    requires Positive(p) && max >= 1 && Reaches(p, max, n, actions, s)
    requires forall a :: a in actions ==> !a.Interrupt?
    ensures s.circuit.state == HalfOpen ==>
              && (forall c :: c in s.calls && c.probe == Some(s.episode) ==> InFlight(c))
              && (exists c :: c in s.calls && c.probe == Some(s.episode))
    ensures Quiescent(s) ==>
              && s.circuit.state != HalfOpen
              && forall t :: t >= s.circuit.openedAt + p.openDuration ==> Admits(p, s.circuit, AllowAt(t))
  {
    InvAlways(p, max, n, actions, s);
    InterruptionsAreActions(p, max, n, actions, s);
    CountBounds(s.calls, (c: ScanCall) => c.probe == Some(s.episode) && c.phase == Returned(Interrupted));
    if s.circuit.state == HalfOpen {
      HalfOpenCallsPending(p, max, s);
    }
  }

  /** A call fails for good and opens the circuit; the probe admitted later is about to sleep. */
  lemma ProbeAboutToSleep(p: Policy) returns (actions: seq<Action>, s: System)
    requires p == Policy(1, 10, 1)
    ensures Reaches(p, 3, 2, actions, s) && s.circuit == Circuit(HalfOpen, 1, 0, 1)
    ensures |s.calls| == 2 && s.calls[0].phase.Returned? && Enabled(s, Interrupt(1))
  {
    var s0 := Initial(2);
    var a1, s1 := [Start(0, 0)], Step(p, 3, s0, Start(0, 0));
    ExecuteOneMore(p, 3, s0, [], s0, Start(0, 0));
    assert [] + [Start(0, 0)] == a1;
    var s2 := Step(p, 3, s1, Scan(0, ScanFailed(Permanent)));
    var a2 := a1 + [Scan(0, ScanFailed(Permanent))];
    ExecuteOneMore(p, 3, s0, a1, s1, Scan(0, ScanFailed(Permanent)));
    var a3, s3 := a2 + [Report(0, 0)], Step(p, 3, s2, Report(0, 0));
    ExecuteOneMore(p, 3, s0, a2, s2, Report(0, 0));
    var a4, s4 := a3 + [Start(1, 10)], Step(p, 3, s3, Start(1, 10));
    ExecuteOneMore(p, 3, s0, a3, s3, Start(1, 10));
    actions, s := a4 + [Scan(1, ScanFailed(Timeout))], Step(p, 3, s4, Scan(1, ScanFailed(Timeout)));
    ExecuteOneMore(p, 3, s0, a4, s4, Scan(1, ScanFailed(Timeout)));
  }

  /** One failure, one interrupted probe: the circuit never admits again. */
  lemma InterruptedProbeSticks() returns (p: Policy, actions: seq<Action>, s: System)
    ensures Positive(p) && Reaches(p, 3, 2, actions, s)
    ensures Quiescent(s) && s.circuit.state == HalfOpen && Stuck(p, s.circuit)
  {
    p := Policy(1, 10, 1);
    var before, t := ProbeAboutToSleep(p);
    actions, s := before + [Interrupt(1)], Step(p, 3, t, Interrupt(1));
    ExecuteOneMore(p, 3, Initial(2), before, t, Interrupt(1));
  }

  lemma ExecuteOneMore(p: Policy, max: int, s: System, actions: seq<Action>, t: System, a: Action)
    requires Execute(p, max, s, actions) == Some(t) && Enabled(t, a)
    ensures Execute(p, max, s, actions + [a]) == Some(Step(p, max, t, a))
  {
    assert (actions + [a])[..|actions|] == actions;
  }

  // --- a call's own effect on the circuit ---

  /**
   A call that returns with a good scan leaves the circuit closed without failures, unless it had
   opened meanwhile; one that returns with an error leaves it open, or one failure further.
   */
  lemma ReportTells(p: Policy, max: int, s: System, i: nat, at: int)
    requires Enabled(s, Report(i, at))
    ensures var t := Step(p, max, s, Report(i, at));
            && t.calls[i].phase.Returned?
            && match t.calls[i].phase.result
               case Succeeded =>
                 && t.circuit.state == (if s.circuit.state == Open then Open else Closed)
                 && (t.circuit.state == Closed ==> t.circuit.consecutiveFailures == 0)
               case FailedWith(_) =>
                 || (t.circuit.state == Open && (s.circuit.state != Open ==> t.circuit.openedAt == at))
                 || (s.circuit.state == t.circuit.state == Closed
                     && t.circuit.consecutiveFailures == s.circuit.consecutiveFailures + 1)
               case _ => false
  {
  }

  function Alone(circuit: Circuit, c: ScanCall, episode: nat): System {
    System(circuit, [c], episode)
  }

  /** The one call after k attempts that were worth retrying, about to scan again. */
  lemma {:induction false} RetriesRun(p: Policy, max: int, circuit: Circuit, c: ScanCall, episode: nat,
                                      outcomes: seq<ScanOutcome>, k: nat) returns (actions: seq<Action>)
    requires c.phase == Scanning && c.outcomes == [] && k <= |outcomes| && k < max
    requires forall i :: 0 <= i < k ==> WorthRetrying(outcomes[i])
    ensures Execute(p, max, Alone(circuit, c, episode), actions)
         == Some(Alone(circuit, c.(outcomes := outcomes[..k]), episode))
  {
    if k == 0 {
      actions := [];
      assert outcomes[..0] == [];
    } else {
      var s0 := Alone(circuit, c, episode);
      var before := RetriesRun(p, max, circuit, c, episode, outcomes, k - 1);
      var s := Alone(circuit, c.(outcomes := outcomes[..k - 1]), episode);
      var scan := Scan(0, outcomes[k - 1]);
      ExecuteOneMore(p, max, s0, before, s, scan);
      ExecuteOneMore(p, max, s0, before + [scan], Step(p, max, s, scan), Wake(0));
      actions := before + [scan] + [Wake(0)];
      assert outcomes[..k - 1] + [outcomes[k - 1]] == outcomes[..k];
      assert Step(p, max, Step(p, max, s, scan), Wake(0)) == Alone(circuit, c.(outcomes := outcomes[..k]), episode);
    }
  }

  /** The last attempt, and what follows it. */
  lemma LastAttemptRuns(p: Policy, max: int, circuit: Circuit, c: ScanCall, episode: nat,
                        outcomes: seq<ScanOutcome>, result: CallResult, reportAt: int)
    returns (actions: seq<Action>, s: System)
    requires c.phase == Scanning && outcomes != [] && c.outcomes == outcomes[..|outcomes| - 1]
    requires ProperReturn(max, outcomes, result)
    ensures Execute(p, max, Alone(circuit, c, episode), actions) == Some(s)
    ensures s.circuit == Run(p, circuit, Reports(result, reportAt)) && |s.calls| == 1
    ensures s.calls[0].phase == Returned(result) && s.calls[0].outcomes == outcomes
  {
    var s0, last := Alone(circuit, c, episode), outcomes[|outcomes| - 1];
    var scan := Scan(0, last);
    var s1 := Step(p, max, s0, scan);
    assert c.outcomes + [last] == outcomes;
    ExecuteOneMore(p, max, s0, [], s0, scan);
    var end := if result.Interrupted? then Interrupt(0) else Report(0, reportAt);
    ExecuteOneMore(p, max, s0, [] + [scan], s1, end);
    actions, s := [] + [scan] + [end], Step(p, max, s1, end);
    RunOne(p, circuit, Success);
    RunOne(p, circuit, FailureAt(reportAt));
  }

  lemma RunOne(p: Policy, circuit: Circuit, call: Call)
    ensures Run(p, circuit, [call]) == Next(p, circuit, call)
  {
    assert [call][..0] == [];
  }

  /** The circuit after an undisturbed call. */
  function CircuitAfter(p: Policy, circuit: Circuit, result: CallResult, admitAt: int, reportAt: int): Circuit {
    Run(p, Next(p, circuit, AllowAt(admitAt)), Reports(result, reportAt))
  }

  /** What the retry loop returns and does to the breaker is what a run of this machine with one call does. */
  lemma CallIsRun(p: Policy, max: int, circuit: Circuit, outcomes: seq<ScanOutcome>, result: CallResult, admitAt: int,
                  reportAt: int) returns (actions: seq<Action>, s: System)
    requires max >= 1 && ProperReturn(max, outcomes, result)
    requires result.Refused? <==> !Admits(p, circuit, AllowAt(admitAt))
    ensures Execute(p, max, Alone(circuit, ScanCall(Ready, [], None, 0), 0), actions) == Some(s)
    ensures s.circuit == CircuitAfter(p, circuit, result, admitAt, reportAt) && |s.calls| == 1
    ensures s.calls[0].phase == Returned(result) && s.calls[0].outcomes == outcomes
  {
    var s0, start := Alone(circuit, ScanCall(Ready, [], None, 0), 0), Start(0, admitAt);
    var s1 := Step(p, max, s0, start);
    ExecuteOneMore(p, max, s0, [], s0, start);
    actions, s := [] + [start], s1;
    if !result.Refused? {
      var c, n := s1.calls[0], |outcomes| - 1;
      assert s1 == Alone(s1.circuit, c, s1.episode);
      var retries := RetriesRun(p, max, s1.circuit, c, s1.episode, outcomes, n);
      var last;
      last, s := LastAttemptRuns(p, max, s1.circuit, c.(outcomes := outcomes[..n]), s1.episode, outcomes, result,
        reportAt);
      ExecuteConcat(p, max, s0, actions, s1, retries);
      ExecuteConcat(p, max, s0, actions + retries, Alone(s1.circuit, c.(outcomes := outcomes[..n]), s1.episode), last);
      actions := actions + retries + last;
    }
  }

  lemma {:induction false} ExecuteConcat(p: Policy, max: int, s: System, a: seq<Action>, t: System, b: seq<Action>)
    requires Execute(p, max, s, a) == Some(t)
    ensures Execute(p, max, s, a + b) == Execute(p, max, t, b)
  {
    if b == [] {
      assert a + b == a;
    } else {
      assert (a + b)[..|a + b| - 1] == a + b[..|b| - 1];
      ExecuteConcat(p, max, s, a, t, b[..|b| - 1]);
    }
  }

  /** The method leaves its scanner's circuit as that run does. */
  lemma MethodIsRun(p: Policy, m: Circuits, name: string, result: CallResult, admitAt: int, reportAt: int)
    ensures Lookup(AfterCall(p, m, name, result, admitAt, reportAt), name)
         == CircuitAfter(p, Lookup(m, name), result, admitAt, reportAt)
  {
    var admitted := Next(p, Lookup(m, name), AllowAt(admitAt));
    RunOne(p, admitted, Success);
    RunOne(p, admitted, FailureAt(reportAt));
  }

  // --- the breaker's bounds hold of the running system ---

  /** The breaker calls the actions make. */
  ghost function BreakerCalls(p: Policy, max: int, s: System, actions: seq<Action>): seq<Call> {
    if actions == [] then []
    else
      var rest, a := actions[..|actions| - 1], actions[|actions| - 1];
      BreakerCalls(p, max, s, rest) +
      match Execute(p, max, s, rest)
      case None => []
      case Some(t) =>
        if !Enabled(t, a) then []
        else if a.Start? then [AllowAt(a.at)]
        else if a.Report? then [if Last(t.calls[a.i]).ScanOk? then Success else FailureAt(a.at)]
        else []
  }

  function Admitted(calls: seq<ScanCall>): nat {
    Count(calls, (c: ScanCall) => c.phase != Ready && c.phase != Returned(Refused))
  }

  lemma {:induction false} SystemRunsBreaker(p: Policy, max: int, s: System, actions: seq<Action>, t: System)
    requires Positive(p) && max >= 1 && Inv(p, max, s) && Execute(p, max, s, actions) == Some(t)
    ensures var calls := BreakerCalls(p, max, s, actions);
            && Inv(p, max, t)
            && t.circuit == Run(p, s.circuit, calls)
            && Admitted(t.calls) == Admitted(s.calls) + Admissions(p, s.circuit, calls)
  {
    if actions == [] {
    } else {
      var rest, a := actions[..|actions| - 1], actions[|actions| - 1];
      var before := Execute(p, max, s, rest).value;
      SystemRunsBreaker(p, max, s, rest, before);
      StepKeepsInv(p, max, before, a);
      AdmittedStep(p, max, before, a);
      var calls := BreakerCalls(p, max, s, actions);
      if a.Start? || a.Report? {
        assert calls[..|calls| - 1] == BreakerCalls(p, max, s, rest);
      } else {
        assert calls == BreakerCalls(p, max, s, rest);
      }
    }
  }

  lemma AdmittedStep(p: Policy, max: int, s: System, a: Action)
    requires Inv(p, max, s) && Enabled(s, a)
    ensures Admitted(Step(p, max, s, a).calls) ==
            Admitted(s.calls) + if a.Start? && Admits(p, s.circuit, AllowAt(a.at)) then 1 else 0
  {
    assert CallOk(max, s.calls[a.i]);
    CountUpdate(s.calls, (c: ScanCall) => c.phase != Ready && c.phase != Returned(Refused),
                a.i, Step(p, max, s, a).calls[a.i]);
  }

  /**
   However many scans run concurrently: from an open circuit on, a window of length T starts
   at most halfOpenMaxRequests * floor(T / openDuration) of them while no probe succeeds.
   */
  lemma ConcurrentRateBound(p: Policy, max: int, n: nat, prefix: seq<Action>, s: System, window: seq<Action>,
                            t: System, T: nat)
    requires Positive(p) && max >= 1 && Reaches(p, max, n, prefix, s) && Execute(p, max, s, window) == Some(t)
    requires s.circuit.state == Open
    requires var calls := BreakerCalls(p, max, s, window);
             && ClockWithin(calls, s.circuit.openedAt, s.circuit.openedAt + T)
             && NoHalfOpenSuccess(p, s.circuit, calls)
    ensures Admitted(t.calls) - Admitted(s.calls) <= p.halfOpenMaxRequests * (T / p.openDuration)
  {
    InvAlways(p, max, n, prefix, s);
    SystemRunsBreaker(p, max, s, window, t);
    RateBound(p, s.circuit, BreakerCalls(p, max, s, window), T);
  }
}
