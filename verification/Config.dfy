/**
 Scanner configuration: validation, the defaults that stand in for zero values, and what an
 accepted configuration guarantees to the breaker, the retry loop, the dispatcher and the limiter.
 */
module Config {
  import opened Wrappers
  import opened Clock
  import Breaker
  import Limiter
  import Reconcile
  import Retry

  datatype RetryConfig =
    RetryConfig(maxAttempts: int, initialBackoff: Duration, maxBackoff: Duration, backoffMultiplier: real)

  datatype CircuitConfig = CircuitConfig(failureThreshold: int, openDuration: Duration, halfOpenMaxRequests: int)

  datatype RuntimeConfig = RuntimeConfig(timeout: Duration, retry: RetryConfig, circuit: CircuitConfig)

  datatype BackpressureConfig = BackpressureConfig(errorRateThreshold: real, minRPS: real, maxRPS: real)

  datatype ScannerConfig = ScannerConfig(name: string, kind: string)

  datatype ScannersConfig = ScannersConfig(concurrency: int, namespaceConcurrency: int, runtime: RuntimeConfig,
                                           backpressure: BackpressureConfig, scanners: seq<ScannerConfig>)

  const DEFAULT_RUNTIME := RuntimeConfig(300 * SECOND, RetryConfig(3, SECOND, 10 * SECOND, 2.0),
                                        CircuitConfig(3, 120 * SECOND, 1))
  const DEFAULT_BACKPRESSURE := BackpressureConfig(0.5, 1.0, 100.0)
  const DEFAULT_NAMESPACE_CONCURRENCY := 4

  // --- defaults ---

  function OrDefault<T(==)>(x: T, zero: T, d: T): T {
    if x == zero then d else x
  }

  function EffectiveRuntime(r: RuntimeConfig): RuntimeConfig {
    var d := DEFAULT_RUNTIME;
    RuntimeConfig(
      OrDefault<Duration>(r.timeout, 0, d.timeout),
      RetryConfig(OrDefault(r.retry.maxAttempts, 0, d.retry.maxAttempts),
                  OrDefault<Duration>(r.retry.initialBackoff, 0, d.retry.initialBackoff),
                  OrDefault<Duration>(r.retry.maxBackoff, 0, d.retry.maxBackoff),
                  OrDefault(r.retry.backoffMultiplier, 0.0, d.retry.backoffMultiplier)),
      CircuitConfig(OrDefault(r.circuit.failureThreshold, 0, d.circuit.failureThreshold),
                    OrDefault<Duration>(r.circuit.openDuration, 0, d.circuit.openDuration),
                    OrDefault(r.circuit.halfOpenMaxRequests, 0, d.circuit.halfOpenMaxRequests)))
  }

  function Effective(s: ScannersConfig): ScannersConfig {
    var b, d := s.backpressure, DEFAULT_BACKPRESSURE;
    s.(namespaceConcurrency :=
         if s.namespaceConcurrency <= 0 then DEFAULT_NAMESPACE_CONCURRENCY else s.namespaceConcurrency,
       backpressure :=
         BackpressureConfig(OrDefault(b.errorRateThreshold, 0.0, d.errorRateThreshold),
                            OrDefault(b.minRPS, 0.0, d.minRPS), OrDefault(b.maxRPS, 0.0, d.maxRPS)))
  }

  predicate SameUnlessZero<T(==)>(given: T, zero: T, effective: T) {
    given != zero ==> effective == given
  }

  /** Values given are kept, negative ones included, whatever the other fields are. */
  predicate KeepsGiven(g: RuntimeConfig, e: RuntimeConfig) {
    && SameUnlessZero<Duration>(g.timeout, 0, e.timeout)
    && SameUnlessZero(g.retry.maxAttempts, 0, e.retry.maxAttempts)
    && SameUnlessZero<Duration>(g.retry.initialBackoff, 0, e.retry.initialBackoff)
    && SameUnlessZero<Duration>(g.retry.maxBackoff, 0, e.retry.maxBackoff)
    && SameUnlessZero(g.retry.backoffMultiplier, 0.0, e.retry.backoffMultiplier)
    && SameUnlessZero(g.circuit.failureThreshold, 0, e.circuit.failureThreshold)
    && SameUnlessZero<Duration>(g.circuit.openDuration, 0, e.circuit.openDuration)
    && SameUnlessZero(g.circuit.halfOpenMaxRequests, 0, e.circuit.halfOpenMaxRequests)
  }

  /** Zero becomes five minutes; three attempts, backing off from one second to ten by two; and 3, two minutes, 1. */
  predicate FillsDefaults(g: RuntimeConfig, e: RuntimeConfig) {
    && (g.timeout == 0 ==> e.timeout == 300 * SECOND)
    && (g.retry.maxAttempts == 0 ==> e.retry.maxAttempts == 3)
    && (g.retry.initialBackoff == 0 ==> e.retry.initialBackoff == SECOND)
    && (g.retry.maxBackoff == 0 ==> e.retry.maxBackoff == 10 * SECOND)
    && (g.retry.backoffMultiplier == 0.0 ==> e.retry.backoffMultiplier == 2.0)
    && (g.circuit.failureThreshold == 0 ==> e.circuit.failureThreshold == 3)
    && (g.circuit.openDuration == 0 ==> e.circuit.openDuration == 120 * SECOND)
    && (g.circuit.halfOpenMaxRequests == 0 ==> e.circuit.halfOpenMaxRequests == 1)
  }

  /** The effective runtime configuration is the only one that keeps what was given and defaults the rest. */
  lemma EffectiveRuntimeExactly(g: RuntimeConfig, e: RuntimeConfig)
    ensures e == EffectiveRuntime(g) <==> KeepsGiven(g, e) && FillsDefaults(g, e)
    ensures EffectiveRuntime(EffectiveRuntime(g)) == EffectiveRuntime(g)
  {
  }

  /** So with the rest: four namespaces at a time, half of the scans failing, between 1 and 100 scans a second. */
  lemma EffectiveExactly(g: ScannersConfig, e: ScannersConfig)
    ensures e == Effective(g) <==>
            && e.concurrency == g.concurrency && e.runtime == g.runtime && e.scanners == g.scanners
            && e.namespaceConcurrency == (if g.namespaceConcurrency > 0 then g.namespaceConcurrency else 4)
            && SameUnlessZero(g.backpressure.errorRateThreshold, 0.0, e.backpressure.errorRateThreshold)
            && SameUnlessZero(g.backpressure.minRPS, 0.0, e.backpressure.minRPS)
            && SameUnlessZero(g.backpressure.maxRPS, 0.0, e.backpressure.maxRPS)
            && (g.backpressure.errorRateThreshold == 0.0 ==> e.backpressure.errorRateThreshold == 0.5)
            && (g.backpressure.minRPS == 0.0 ==> e.backpressure.minRPS == 1.0)
            && (g.backpressure.maxRPS == 0.0 ==> e.backpressure.maxRPS == 100.0)
    ensures Effective(Effective(g)) == Effective(g)
  {
  }

  /** The source's by-value copy, overwritten field by field. */
  method EffectiveScannerRuntimeConfig(given: RuntimeConfig) returns (runtime: RuntimeConfig)
    ensures runtime == EffectiveRuntime(given) && KeepsGiven(given, runtime) && FillsDefaults(given, runtime)
  {
    runtime := given;
    if runtime.timeout == 0 {
      runtime := runtime.(timeout := DEFAULT_RUNTIME.timeout);
    }
    var retry, circuit := runtime.retry, runtime.circuit;
    if retry.maxAttempts == 0 {
      retry := retry.(maxAttempts := DEFAULT_RUNTIME.retry.maxAttempts);
    }
    if retry.initialBackoff == 0 {
      retry := retry.(initialBackoff := DEFAULT_RUNTIME.retry.initialBackoff);
    }
    if retry.maxBackoff == 0 {
      retry := retry.(maxBackoff := DEFAULT_RUNTIME.retry.maxBackoff);
    }
    if retry.backoffMultiplier == 0.0 {
      retry := retry.(backoffMultiplier := DEFAULT_RUNTIME.retry.backoffMultiplier);
    }
    if circuit.failureThreshold == 0 {
      circuit := circuit.(failureThreshold := DEFAULT_RUNTIME.circuit.failureThreshold);
    }
    if circuit.openDuration == 0 {
      circuit := circuit.(openDuration := DEFAULT_RUNTIME.circuit.openDuration);
    }
    if circuit.halfOpenMaxRequests == 0 {
      circuit := circuit.(halfOpenMaxRequests := DEFAULT_RUNTIME.circuit.halfOpenMaxRequests);
    }
    runtime := runtime.(retry := retry, circuit := circuit);
  }

  method EffectiveScannersConfig(given: ScannersConfig) returns (scanners: ScannersConfig)
    ensures scanners == Effective(given)
  {
    scanners := given;
    if scanners.namespaceConcurrency <= 0 {
      scanners := scanners.(namespaceConcurrency := DEFAULT_NAMESPACE_CONCURRENCY);
    }
    var bp := scanners.backpressure;
    if bp.errorRateThreshold == 0.0 {
      bp := bp.(errorRateThreshold := DEFAULT_BACKPRESSURE.errorRateThreshold);
    }
    if bp.minRPS == 0.0 {
      bp := bp.(minRPS := DEFAULT_BACKPRESSURE.minRPS);
    }
    if bp.maxRPS == 0.0 {
      bp := bp.(maxRPS := DEFAULT_BACKPRESSURE.maxRPS);
    }
    scanners := scanners.(backpressure := bp);
  }

  // --- validation ---

  datatype Rejection =
    | NoScanners | BadConcurrency | BadNamespaceConcurrency
    | BadErrorRateThreshold | BadMinRPS | BadMaxRPS | MinAboveMax
    | BadTimeout | BadMaxAttempts | BadInitialBackoff | BadMaxBackoff | BadMultiplier
    | BadFailureThreshold | BadOpenDuration | BadHalfOpenMaxRequests
    | NoName(i: nat) | NoType(i: nat)

  /** What each rejection says of the configuration as written, defaults not yet applied. */
  predicate Faulty(s: ScannersConfig, e: Rejection) {
    var b, r := s.backpressure, s.runtime;
    match e
    case NoScanners => s.scanners == []
    case BadConcurrency => s.concurrency <= 0
    case BadNamespaceConcurrency => s.namespaceConcurrency < 0
    case BadErrorRateThreshold => b.errorRateThreshold < 0.0 || b.errorRateThreshold > 1.0
    case BadMinRPS => b.minRPS < 0.0
    case BadMaxRPS => b.maxRPS < 0.0
    case MinAboveMax => b.maxRPS > 0.0 && b.minRPS > b.maxRPS
    case BadTimeout => r.timeout < 0
    case BadMaxAttempts => r.retry.maxAttempts < 0
    case BadInitialBackoff => r.retry.initialBackoff < 0
    case BadMaxBackoff => r.retry.maxBackoff < 0
    case BadMultiplier => r.retry.backoffMultiplier < 1.0 && r.retry.backoffMultiplier != 0.0
    case BadFailureThreshold => r.circuit.failureThreshold < 0
    case BadOpenDuration => r.circuit.openDuration < 0
    case BadHalfOpenMaxRequests => r.circuit.halfOpenMaxRequests < 0
    case NoName(i) => i < |s.scanners| && s.scanners[i].name == ""
    case NoType(i) => i < |s.scanners| && s.scanners[i].kind == ""
  }

  /** The order in which faults are looked for. */
  function Rank(e: Rejection): nat {
    match e
    case NoScanners => 0
    case BadConcurrency => 1
    case BadNamespaceConcurrency => 2
    case BadErrorRateThreshold => 3
    case BadMinRPS => 4
    case BadMaxRPS => 5
    case MinAboveMax => 6
    case BadTimeout => 7
    case BadMaxAttempts => 8
    case BadInitialBackoff => 9
    case BadMaxBackoff => 10
    case BadMultiplier => 11
    case BadFailureThreshold => 12
    case BadOpenDuration => 13
    case BadHalfOpenMaxRequests => 14
    case NoName(i) => 15 + 2 * i
    case NoType(i) => 16 + 2 * i
  }

  ghost predicate FaultlessBelow(s: ScannersConfig, rank: nat) {
    forall e: Rejection :: Rank(e) < rank ==> !Faulty(s, e)
  }

  ghost predicate Accepted(s: ScannersConfig) {
    forall e: Rejection :: !Faulty(s, e)
  }

  /** Which configurations are accepted, in one formula, the runtime section with its defaults in place. */
  lemma AcceptedExactly(s: ScannersConfig)
    ensures Accepted(s) <==>
            var b, r := s.backpressure, EffectiveRuntime(s.runtime);
            && |s.scanners| > 0 && s.concurrency >= 1 && s.namespaceConcurrency >= 0
            && 0.0 <= b.errorRateThreshold <= 1.0 && b.minRPS >= 0.0 && b.maxRPS >= 0.0
            && (b.maxRPS == 0.0 || b.minRPS <= b.maxRPS)
            && r.timeout > 0 && r.retry.maxAttempts > 0 && r.retry.initialBackoff > 0 && r.retry.maxBackoff > 0
            && r.retry.backoffMultiplier >= 1.0 && r.circuit.failureThreshold > 0 && r.circuit.openDuration > 0
            && r.circuit.halfOpenMaxRequests > 0
            && forall i :: 0 <= i < |s.scanners| ==> s.scanners[i].name != "" && s.scanners[i].kind != ""
  {
    EffectiveShowsFaults(s);
    if Accepted(s) {
      AcceptedFaults(s);
      forall i | 0 <= i < |s.scanners| ensures s.scanners[i].name != "" && s.scanners[i].kind != "" {
        assert !Faulty(s, NoName(i)) && !Faulty(s, NoType(i));
      }
    }
  }

  lemma AcceptedFaults(s: ScannersConfig)
    requires Accepted(s)
    ensures !Faulty(s, NoScanners) && !Faulty(s, BadConcurrency) && !Faulty(s, BadNamespaceConcurrency)
    ensures !Faulty(s, BadErrorRateThreshold) && !Faulty(s, BadMinRPS) && !Faulty(s, BadMaxRPS)
    ensures !Faulty(s, MinAboveMax) && !Faulty(s, BadTimeout) && !Faulty(s, BadMaxAttempts)
    ensures !Faulty(s, BadInitialBackoff) && !Faulty(s, BadMaxBackoff) && !Faulty(s, BadMultiplier)
    ensures !Faulty(s, BadFailureThreshold) && !Faulty(s, BadOpenDuration) && !Faulty(s, BadHalfOpenMaxRequests)
  {
  }

  lemma RankInjective(e: Rejection, f: Rejection)
    requires Rank(e) == Rank(f)
    ensures e == f
  {
  }

  /** One more fault ruled out. */
  lemma NextRank(s: ScannersConfig, e: Rejection)
    requires FaultlessBelow(s, Rank(e)) && !Faulty(s, e)
    ensures FaultlessBelow(s, Rank(e) + 1)
  {
    forall f: Rejection | Rank(f) < Rank(e) + 1 ensures !Faulty(s, f) {
      if Rank(f) == Rank(e) {
        RankInjective(e, f);
      }
    }
  }

  lemma AllRanks(s: ScannersConfig)
    requires FaultlessBelow(s, 15 + 2 * |s.scanners|)
    ensures Accepted(s)
  {
  }

  /** The faults are looked for in the order of their ranks. */
  method ValidateLimits(s: ScannersConfig) returns (err: Option<Rejection>)
    ensures err == None ==> FaultlessBelow(s, 7)
    ensures err.Some? ==> Faulty(s, err.value) && FaultlessBelow(s, Rank(err.value))
  {
    if |s.scanners| == 0 { return Some(NoScanners); }
    NextRank(s, NoScanners);
    if s.concurrency <= 0 { return Some(BadConcurrency); }
    NextRank(s, BadConcurrency);
    if s.namespaceConcurrency < 0 { return Some(BadNamespaceConcurrency); }
    NextRank(s, BadNamespaceConcurrency);
    var bp := s.backpressure;
    if bp.errorRateThreshold < 0.0 || bp.errorRateThreshold > 1.0 { return Some(BadErrorRateThreshold); }
    NextRank(s, BadErrorRateThreshold);
    if bp.minRPS < 0.0 { return Some(BadMinRPS); }
    NextRank(s, BadMinRPS);
    if bp.maxRPS < 0.0 { return Some(BadMaxRPS); }
    NextRank(s, BadMaxRPS);
    if bp.minRPS > 0.0 && bp.maxRPS > 0.0 && bp.minRPS > bp.maxRPS { return Some(MinAboveMax); }
    NextRank(s, MinAboveMax);
    return None;
  }

  /** The faults of the runtime section show in its effective form as values that are not positive. */
  ghost predicate FaultsShow(s: ScannersConfig, r: RuntimeConfig) {
    && (r.timeout <= 0 <==> Faulty(s, BadTimeout))
    && (r.retry.maxAttempts <= 0 <==> Faulty(s, BadMaxAttempts))
    && (r.retry.initialBackoff <= 0 <==> Faulty(s, BadInitialBackoff))
    && (r.retry.maxBackoff <= 0 <==> Faulty(s, BadMaxBackoff))
    && (r.retry.backoffMultiplier < 1.0 <==> Faulty(s, BadMultiplier))
    && (r.circuit.failureThreshold <= 0 <==> Faulty(s, BadFailureThreshold))
    && (r.circuit.openDuration <= 0 <==> Faulty(s, BadOpenDuration))
    && (r.circuit.halfOpenMaxRequests <= 0 <==> Faulty(s, BadHalfOpenMaxRequests))
  }

  lemma EffectiveShowsFaults(s: ScannersConfig)
    ensures FaultsShow(s, EffectiveRuntime(s.runtime))
  {
  }

  method ValidateRuntime(runtime: RuntimeConfig, ghost s: ScannersConfig) returns (err: Option<Rejection>)
    requires FaultsShow(s, runtime) && FaultlessBelow(s, 7)
    ensures err == None ==> FaultlessBelow(s, 15)
    ensures err.Some? ==> Faulty(s, err.value) && FaultlessBelow(s, Rank(err.value))
  {
    if runtime.timeout <= 0 { return Some(BadTimeout); }
    NextRank(s, BadTimeout);
    if runtime.retry.maxAttempts <= 0 { return Some(BadMaxAttempts); }
    NextRank(s, BadMaxAttempts);
    if runtime.retry.initialBackoff <= 0 { return Some(BadInitialBackoff); }
    NextRank(s, BadInitialBackoff);
    if runtime.retry.maxBackoff <= 0 { return Some(BadMaxBackoff); }
    NextRank(s, BadMaxBackoff);
    if runtime.retry.backoffMultiplier < 1.0 { return Some(BadMultiplier); }
    NextRank(s, BadMultiplier);
    if runtime.circuit.failureThreshold <= 0 { return Some(BadFailureThreshold); }
    NextRank(s, BadFailureThreshold);
    if runtime.circuit.openDuration <= 0 { return Some(BadOpenDuration); }
    NextRank(s, BadOpenDuration);
    if runtime.circuit.halfOpenMaxRequests <= 0 { return Some(BadHalfOpenMaxRequests); }
    NextRank(s, BadHalfOpenMaxRequests);
    return None;
  }

  /** Accepts exactly the faultless configurations and names the first fault of any other. */
  method ValidateScanners(s: ScannersConfig) returns (err: Option<Rejection>)
    ensures err.Some? ==> Faulty(s, err.value) && FaultlessBelow(s, Rank(err.value))
    ensures err == None <==> Accepted(s)
  {
    err := ValidateLimits(s);
    if err.Some? { return; }
    var runtime := EffectiveScannerRuntimeConfig(s.runtime);
    EffectiveShowsFaults(s);
    err := ValidateRuntime(runtime, s);
    if err.Some? { return; }
    for i := 0 to |s.scanners|
      invariant err == None && FaultlessBelow(s, 15 + 2 * i)
    {
      if s.scanners[i].name == "" { return Some(NoName(i)); }
      NextRank(s, NoName(i));
      if s.scanners[i].kind == "" { return Some(NoType(i)); }
      NextRank(s, NoType(i));
    }
    AllRanks(s);
  }

  // --- what acceptance guarantees ---

  /** newScannerRuntimePolicy, as the breaker and the retry loop see it. */
  function BreakerPolicy(s: ScannersConfig): Breaker.Policy {
    var c := EffectiveRuntime(s.runtime).circuit;
    Breaker.Policy(c.failureThreshold, c.openDuration, c.halfOpenMaxRequests)
  }

  function RetryPolicy(s: ScannersConfig): Retry.RetryPolicy {
    var r := EffectiveRuntime(s.runtime).retry;
    Retry.RetryPolicy(r.maxAttempts, r.initialBackoff, r.maxBackoff, r.backoffMultiplier)
  }

  function LimiterParams(s: ScannersConfig): (p: Limiter.Params)
    ensures Limiter.Proper(p)
  {
    var b := Effective(s).backpressure;
    Limiter.New(b.maxRPS, b.minRPS, b.errorRateThreshold)
  }

  lemma AcceptedFacts(s: ScannersConfig)
    requires Accepted(s)
    ensures s.scanners != [] && s.concurrency >= 1 && Effective(s).namespaceConcurrency >= 1
    ensures Effective(s).backpressure.minRPS > 0.0 && Effective(s).backpressure.maxRPS > 0.0
    ensures Breaker.Positive(BreakerPolicy(s))
    ensures RetryPolicy(s).maxAttempts >= 1 && RetryPolicy(s).multiplier >= 1.0
    ensures RetryPolicy(s).initialBackoff > 0 && 0 < RetryPolicy(s).maxBackoff <= MAX_DURATION
  {
    assert !Faulty(s, NoScanners) && !Faulty(s, BadConcurrency) && !Faulty(s, BadNamespaceConcurrency);
    assert !Faulty(s, BadMinRPS) && !Faulty(s, BadMaxRPS);
    assert !Faulty(s, BadMaxAttempts) && !Faulty(s, BadMultiplier);
    assert !Faulty(s, BadInitialBackoff) && !Faulty(s, BadMaxBackoff);
    assert !Faulty(s, BadFailureThreshold) && !Faulty(s, BadOpenDuration) && !Faulty(s, BadHalfOpenMaxRequests);
  }

  /** Under an accepted configuration every circuit stays well formed and its probes are rate bounded. */
  lemma AcceptedBreaker(s: ScannersConfig, calls: seq<Breaker.Call>, later: seq<Breaker.Call>, T: nat)
    requires Accepted(s)
    ensures var p := BreakerPolicy(s);
            var c := Breaker.Run(p, Breaker.FRESH, calls);
            && Breaker.WellFormed(p, c)
            && (c.state == Breaker.Open && Breaker.ClockWithin(later, c.openedAt, c.openedAt + T)
                && Breaker.NoHalfOpenSuccess(p, c, later) ==>
                  Breaker.Admissions(p, c, later) <= p.halfOpenMaxRequests * (T / p.openDuration))
  {
    AcceptedFacts(s);
    var p := BreakerPolicy(s);
    Breaker.ReachableState(p, calls);
    var c := Breaker.Run(p, Breaker.FRESH, calls);
    if c.state == Breaker.Open && Breaker.ClockWithin(later, c.openedAt, c.openedAt + T)
       && Breaker.NoHalfOpenSuccess(p, c, later) {
      Breaker.RateBound(p, c, later, T);
    }
  }

  /** The rate in force is positive in every interleaving, even when the effective minimum exceeds the maximum. */
  lemma AcceptedLimiter(s: ScannersConfig, actions: seq<Limiter.Action>, l: Limiter.Shared)
    requires Accepted(s)
    requires Limiter.Execute(LimiterParams(s), actions) == Some(l)
    ensures 0.0 < l.installed <= Effective(s).backpressure.maxRPS
  {
    AcceptedFacts(s);
    var p := LimiterParams(s);
    Limiter.InstalledFromPrefix(p, actions, l);
    var k: nat :| k <= |l.history| && l.installed == Limiter.RateAfter(p, l.history[..k]);
    Limiter.RateOverHistories(p, l.history[..k]);
  }

  /** Backpressure can slow an accepted configuration down exactly when its effective minimum lies below its maximum. */
  lemma ThrottlesExactly(s: ScannersConfig)
    requires Accepted(s)
    ensures var p, b := LimiterParams(s), Effective(s).backpressure;
            (exists history :: Limiter.RateAfter(p, history) < p.maxRPS) <==> b.minRPS < b.maxRPS
  {
    AcceptedFacts(s);
    var p, b := LimiterParams(s), Effective(s).backpressure;
    if b.minRPS < b.maxRPS {
      AllErrorsReachFloor(p);
    } else {
      forall history ensures Limiter.RateAfter(p, history) == p.maxRPS {
        Limiter.RateOverHistories(p, history);
      }
    }
  }

  lemma AllErrorsReachFloor(p: Limiter.Params)
    requires Limiter.Proper(p)
    ensures Limiter.RateAfter(p, [true]) == p.minRPS
  {
    assert [true][..0] == [];
    assert Limiter.Errors([true]) == 1 && Limiter.ErrorRate(1, 1) == 1.0;
  }

  /** Such a configuration exists: a maximum below 1 with the minimum left to its default. */
  lemma InertBackpressure() returns (s: ScannersConfig)
    ensures Accepted(s) && s.backpressure.maxRPS > 0.0
    ensures Effective(s).backpressure.minRPS > Effective(s).backpressure.maxRPS
  {
    var runtime := RuntimeConfig(0, RetryConfig(0, 0, 0, 0.0), CircuitConfig(0, 0, 0));
    s := ScannersConfig(1, 0, runtime, BackpressureConfig(0.0, 0.0, 0.5), [ScannerConfig("a", "trivy")]);
  }

  ghost function ReconcileLimits(s: ScannersConfig): Reconcile.Limits
    requires Accepted(s)
  {
    AcceptedFacts(s);
    Reconcile.Limits(Effective(s).namespaceConcurrency, s.concurrency)
  }

  /** A reconciliation under an accepted configuration is never stuck before it is done. */
  lemma AcceptedProgress(s: ScannersConfig, pairs: seq<seq<nat>>, actions: seq<Reconcile.Action>, t: Reconcile.System)
    requires Accepted(s)
    requires Reconcile.Reaches(ReconcileLimits(s), pairs, actions, t) && !Reconcile.AllDone(t)
    ensures exists a: Reconcile.Action :: Reconcile.Enabled(ReconcileLimits(s), t, a)
  {
    AcceptedFacts(s);
    Reconcile.InvAlways(ReconcileLimits(s), pairs, actions, t);
    Reconcile.Progress(ReconcileLimits(s), t);
  }

  /**
   Where conversions saturate, an accepted configuration's backoff is positive, never shrinks and
   stays within its maximum.
   */
  lemma AcceptedBackoff(s: ScannersConfig, attempt: nat)
    requires Accepted(s) && attempt >= 1
    ensures var p := RetryPolicy(s);
            0 < Retry.Backoff(p, attempt, MAX_DURATION) <= Retry.Backoff(p, attempt + 1, MAX_DURATION) <= p.maxBackoff
  {
    AcceptedFacts(s);
    Retry.BackoffMonotoneWhenSaturating(RetryPolicy(s), attempt);
  }
}
