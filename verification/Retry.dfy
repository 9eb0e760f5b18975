/**
 One resilient scan: an admission, a bounded number of attempts with backoff between them,
 and at most one outcome reported to the breaker.
 */
module Retry {
  import opened Wrappers
  import opened Breaker
  import opened Clock
  import opened CircuitBreakers

  // --- classification of scan errors ---

  /** What errors.Is and errors.As can find in an error's chain. */
  datatype ScanError = ScanError(circuitOpen: bool, deadlineExceeded: bool, canceled: bool,
                                 netError: bool, temporary: Option<bool>)

  datatype ErrorClass = Timeout | Transient | Permanent | CircuitOpen

  /** Worth retrying is whatever is not a refusal and looks like a deadline, a cancellation or a passing fault. */
  function Classify(e: ScanError): (cls: ErrorClass)
    ensures Retryable(cls) <==>
            !e.circuitOpen && (e.deadlineExceeded || e.canceled || e.netError || e.temporary == Some(true))
    ensures cls == CircuitOpen <==> e.circuitOpen
    ensures cls == Timeout <==> !e.circuitOpen && e.deadlineExceeded
  {
    if e.circuitOpen then CircuitOpen
    else if e.deadlineExceeded then Timeout
    else if e.canceled then Transient
    else if e.netError || e.temporary == Some(true) then Transient
    else Permanent
  }

  predicate Retryable(cls: ErrorClass) {
    cls == Transient || cls == Timeout
  }

  datatype ScanOutcome = ScanOk | ScanFailed(cls: ErrorClass)

  predicate WorthRetrying(o: ScanOutcome) {
    o.ScanFailed? && Retryable(o.cls)
  }

  datatype CallResult = Refused | Succeeded | FailedWith(cls: ErrorClass) | Interrupted

  function Attempts(retryMaxAttempts: int): (n: int)
    ensures n >= 1 && n >= retryMaxAttempts
    ensures n == 1 || n == retryMaxAttempts
  {
    if retryMaxAttempts <= 0 then 1 else retryMaxAttempts
  }

  /**
   The outcomes a call may have seen when it returns: every attempt before the last was
   worth retrying, a failure that is not ends the loop, and there are at most `max` attempts.
   */
  ghost predicate ProperReturn(max: int, outcomes: seq<ScanOutcome>, result: CallResult) {
    && |outcomes| <= max
    && (outcomes == [] <==> result.Refused?)
    && (forall i :: 0 <= i < |outcomes| - 1 ==> WorthRetrying(outcomes[i]))
    && (outcomes != [] ==>
          var last := outcomes[|outcomes| - 1];
          match result
          case Refused => false
          case Succeeded => last == ScanOk
          case FailedWith(cls) => last == ScanFailed(cls) && (!Retryable(cls) || |outcomes| == max)
          case Interrupted => WorthRetrying(last) && |outcomes| < max)
  }

  // --- backoff ---

  datatype RetryPolicy = RetryPolicy(maxAttempts: int, initialBackoff: int, maxBackoff: int, multiplier: real)

  function Pow(b: real, n: nat): real {
    if n == 0 then 1.0 else b * Pow(b, n - 1)
  }

  function RawBackoff(p: RetryPolicy, attempt: int): real {
    var a := if attempt <= 0 then 1 else attempt;
    var m := if p.multiplier < 1.0 then 1.0 else p.multiplier;
    p.initialBackoff as real * Pow(m, a - 1)
  }

  const TWO_TO_63: real := 9_223_372_036_854_775_808.0

  predicate Representable(x: real) {
    -TWO_TO_63 <= x < TWO_TO_63
  }

  /**
   Conversion of a float to a 64-bit Duration.  Truncates toward zero; outside the 64-bit
   range the language leaves the result to the platform, here `garbage`.
   */
  function ToDuration(x: real, garbage: int): int {
    if !Representable(x) then garbage
    else if x >= 0.0 then x.Floor
    else -((-x).Floor)
  }

  function Backoff(p: RetryPolicy, attempt: int, garbage: int): int {
    var backoff := ToDuration(RawBackoff(p, attempt), garbage);
    if backoff > p.maxBackoff then p.maxBackoff else backoff
  }

  lemma {:induction false} PowGrows(b: real, n: nat)
    requires b >= 1.0
    ensures 1.0 <= Pow(b, n) <= Pow(b, n + 1)
  {
    if n == 0 {
    } else {
      PowGrows(b, n - 1);
    }
    assert b * Pow(b, n) - Pow(b, n) == (b - 1.0) * Pow(b, n);
  }

  lemma RawBackoffGrows(p: RetryPolicy, attempt: nat)
    requires p.initialBackoff > 0 && attempt >= 1
    ensures p.initialBackoff as real <= RawBackoff(p, attempt) <= RawBackoff(p, attempt + 1)
  {
    var m := if p.multiplier < 1.0 then 1.0 else p.multiplier;
    PowGrows(m, attempt - 1);
    var i, x, y := p.initialBackoff as real, Pow(m, attempt - 1), Pow(m, attempt);
    assert i * y - i * x == i * (y - x) && i * x - i == i * (x - 1.0);
  }

  /** The first backoff is the initial one, and each is the multiplier (at least 1) times the one before. */
  lemma RawBackoffGeometric(p: RetryPolicy, attempt: int)
    ensures attempt <= 1 ==> RawBackoff(p, attempt) == p.initialBackoff as real
    ensures attempt >= 1 && p.multiplier >= 1.0 ==> RawBackoff(p, attempt + 1) == p.multiplier * RawBackoff(p, attempt)
    ensures attempt >= 1 && p.multiplier < 1.0 ==> RawBackoff(p, attempt) == p.initialBackoff as real
  {
    var i := p.initialBackoff as real;
    if attempt >= 1 {
      if p.multiplier >= 1.0 {
        var x := Pow(p.multiplier, attempt - 1);
        assert i * (p.multiplier * x) == p.multiplier * (i * x);
      } else {
        PowOfOne(attempt - 1);
      }
    }
  }

  lemma {:induction false} PowOfOne(n: nat)
    ensures Pow(1.0, n) == 1.0
  {
    if n == 0 {
    } else {
      PowOfOne(n - 1);
    }
  }

  function IntPow(b: int, n: nat): int {
    if n == 0 then 1 else b * IntPow(b, n - 1)
  }

  lemma {:induction false} PowIsInt(b: int, n: nat)
    ensures Pow(b as real, n) == IntPow(b, n) as real
  {
    if n == 0 {
    } else {
      PowIsInt(b, n - 1);
    }
  }

  /** For a whole multiplier k the n-th sleep is initial * k^(n - 1), or the maximum if that is less. */
  lemma BackoffIsPower(p: RetryPolicy, k: int, attempt: nat, garbage: int)
    requires p.multiplier == k as real && k >= 1 && attempt >= 1
    requires var exact := p.initialBackoff * IntPow(k, attempt - 1); MIN_DURATION <= exact <= MAX_DURATION
    ensures var exact := p.initialBackoff * IntPow(k, attempt - 1);
            Backoff(p, attempt, garbage) == if exact <= p.maxBackoff then exact else p.maxBackoff
  {
    PowIsInt(k, attempt - 1);
    var exact := p.initialBackoff * IntPow(k, attempt - 1);
    assert RawBackoff(p, attempt) == exact as real;
    assert (-(exact as real)).Floor == -exact;
  }

  function Sum(s: seq<int>): int {
    if s == [] then 0 else Sum(s[..|s| - 1]) + s[|s| - 1]
  }

  /** Whatever the platform's conversion yields, n sleeps last at most n * maxBackoff. */
  lemma {:induction false} SleepBounded(p: RetryPolicy, slept: seq<int>, garbage: int)
    requires forall i :: 0 <= i < |slept| ==> slept[i] == Backoff(p, i + 1, garbage)
    ensures forall i :: 0 <= i < |slept| ==> slept[i] <= p.maxBackoff
    ensures Sum(slept) <= |slept| * p.maxBackoff
  {
    if slept == [] {
    } else {
      SleepBounded(p, slept[..|slept| - 1], garbage);
      assert |slept| * p.maxBackoff == (|slept| - 1) * p.maxBackoff + p.maxBackoff;
    }
  }

  /**
   On a platform whose out-of-range conversion is negative, backoff fails to grow at exactly
   one attempt: the first whose unrounded value leaves the 64-bit range.
   */
  lemma BackoffMonotoneExactly(p: RetryPolicy, attempt: nat, garbage: int)
    requires p.initialBackoff > 0 && p.maxBackoff > 0 && attempt >= 1 && garbage < 0
    ensures Backoff(p, attempt, garbage) <= Backoff(p, attempt + 1, garbage)
            <==> (Representable(RawBackoff(p, attempt + 1)) || !Representable(RawBackoff(p, attempt)))
  {
    RawBackoffGrows(p, attempt);
    RawBackoffGrows(p, attempt + 1);
  }

  /** Where the conversion saturates instead, backoff never shrinks. */
  lemma BackoffMonotoneWhenSaturating(p: RetryPolicy, attempt: nat)
    requires p.initialBackoff > 0 && 0 < p.maxBackoff <= MAX_DURATION && attempt >= 1
    ensures 0 < Backoff(p, attempt, MAX_DURATION) <= Backoff(p, attempt + 1, MAX_DURATION) <= p.maxBackoff
  {
    RawBackoffGrows(p, attempt);
    RawBackoffGrows(p, attempt + 1);
  }

  /** The failure is reachable: starting at 2^62 and doubling, the second sleep is cut short. */
  lemma BackoffShrinks() returns (p: RetryPolicy)
    ensures p.initialBackoff > 0 && p.maxBackoff > 0 && p.multiplier >= 1.0
    ensures Backoff(p, 1, MIN_DURATION) > 0 > Backoff(p, 2, MIN_DURATION)
  {
    p := RetryPolicy(5, 0x4000_0000_0000_0000, MAX_DURATION, 2.0);
    assert Pow(2.0, 0) == 1.0 && Pow(2.0, 1) == 2.0;
    assert p.initialBackoff as real == 4_611_686_018_427_387_904.0;
  }

  // --- the loop ---

  /** What the outside world answers: the error of the i-th Scan, whether the i-th sleep ends normally. */
  datatype Environment = Environment(scan: nat -> Option<ScanError>, wakes: nat -> bool)

  function OutcomeOf(e: Option<ScanError>): ScanOutcome {
    match e case None => ScanOk case Some(err) => ScanFailed(Classify(err))
  }

  ghost predicate Follows(env: Environment, outcomes: seq<ScanOutcome>, result: CallResult) {
    && (forall i :: 0 <= i < |outcomes| ==> outcomes[i] == OutcomeOf(env.scan(i + 1)))
    && (forall i :: 1 <= i < |outcomes| ==> env.wakes(i))
    && (result.Interrupted? ==> !env.wakes(|outcomes|))
  }

  /** Whether the loop goes on after attempt i. */
  ghost predicate GoesOn(max: int, env: Environment, i: nat) {
    WorthRetrying(OutcomeOf(env.scan(i))) && i < max && env.wakes(i)
  }

  lemma ReturnsAtFirstStop(max: int, env: Environment, outcomes: seq<ScanOutcome>, result: CallResult)
    requires ProperReturn(max, outcomes, result) && Follows(env, outcomes, result) && !result.Refused?
    ensures |outcomes| >= 1 && !GoesOn(max, env, |outcomes|)
    ensures forall i :: 1 <= i < |outcomes| ==> GoesOn(max, env, i)
  {
    forall i | 1 <= i < |outcomes| ensures GoesOn(max, env, i) {
      assert WorthRetrying(outcomes[i - 1]);
    }
  }

  /** An admitted call's attempts and result are determined by the environment. */
  lemma ReturnDetermined(max: int, env: Environment, o1: seq<ScanOutcome>, r1: CallResult, o2: seq<ScanOutcome>,
                         r2: CallResult)
    requires ProperReturn(max, o1, r1) && Follows(env, o1, r1) && !r1.Refused?
    requires ProperReturn(max, o2, r2) && Follows(env, o2, r2) && !r2.Refused?
    ensures o1 == o2 && r1 == r2
  {
    ReturnsAtFirstStop(max, env, o1, r1);
    ReturnsAtFirstStop(max, env, o2, r2);
    assert |o1| == |o2|;
  }

  /** The breaker calls one resilient scan makes, in order. */
  function Reports(result: CallResult, now: int): seq<Call> {
    match result
    case Succeeded => [Success]
    case FailedWith(_) => [FailureAt(now)]
    case Refused => []
    case Interrupted => []
  }

  /** So far every attempt failed, was worth retrying, and was slept on. */
  ghost predicate Retried(policy: RetryPolicy, garbage: int, env: Environment, outcomes: seq<ScanOutcome>,
                          slept: seq<int>) {
    && |slept| == |outcomes|
    && (forall i :: 0 <= i < |outcomes| ==> WorthRetrying(outcomes[i]) && outcomes[i] == OutcomeOf(env.scan(i + 1)))
    && (forall i :: 1 <= i <= |outcomes| ==> env.wakes(i))
    && (forall i :: 0 <= i < |slept| ==> slept[i] == Backoff(policy, i + 1, garbage))
  }

  /** How the loop may leave after one more attempt. */
  lemma LeavesProperly(max: int, policy: RetryPolicy, garbage: int, env: Environment,
                       outcomes: seq<ScanOutcome>, slept: seq<int>, last: ScanOutcome)
    requires Retried(policy, garbage, env, outcomes, slept)
    requires last == OutcomeOf(env.scan(|outcomes| + 1)) && |outcomes| < max
    ensures var all, n := outcomes + [last], |outcomes| + 1;
            && (last == ScanOk ==> ProperReturn(max, all, Succeeded) && Follows(env, all, Succeeded))
            && (last.ScanFailed? && (!Retryable(last.cls) || n == max) ==>
                  ProperReturn(max, all, FailedWith(last.cls)) && Follows(env, all, FailedWith(last.cls)))
            && (WorthRetrying(last) && n < max ==>
                  var slept' := slept + [Backoff(policy, n, garbage)];
                  && (!env.wakes(n) ==> ProperReturn(max, all, Interrupted) && Follows(env, all, Interrupted))
                  && (env.wakes(n) ==> Retried(policy, garbage, env, all, slept')))
  {
  }

  /** One sleep follows every attempt but the last, and an interrupted one the last too. */
  function Sleeps(outcomes: seq<ScanOutcome>, result: CallResult): int {
    if result.Refused? then 0 else if result.Interrupted? then |outcomes| else |outcomes| - 1
  }

  /** The breaker's circuits after the call: the admission, then the report if there is one. */
  function AfterCall(p: Policy, m: Circuits, name: string, result: CallResult, admitAt: int, reportAt: int): Circuits {
    var admitted := NextAll(p, m, NamedCall(name, AllowAt(admitAt)));
    var reports := Reports(result, reportAt);
    if reports == [] then admitted else NextAll(p, admitted, NamedCall(name, reports[0]))
  }

  /**
   What one uninterrupted call has told its scanner's circuit: a good scan leaves it closed with
   no failure counted; a failed one opens it, from that instant, or adds one to its count; a
   refused or interrupted call tells nothing.
   */
  predicate Told(result: CallResult, before: Circuit, after: Circuit, reportAt: int) {
    match result
    case Succeeded => after.state == Closed && after.consecutiveFailures == 0
    case FailedWith(_) =>
      || (after.state == Open && after.openedAt == reportAt)
      || (before.state == after.state == Closed && after.consecutiveFailures == before.consecutiveFailures + 1)
    case _ => after.consecutiveFailures == before.consecutiveFailures && after.openedAt == before.openedAt
  }

  lemma CallTells(p: Policy, m: Circuits, name: string, result: CallResult, admitAt: int, reportAt: int)
    requires result.Refused? <==> !Admits(p, Lookup(m, name), AllowAt(admitAt))
    ensures Told(result, Lookup(m, name), Lookup(AfterCall(p, m, name, result, admitAt, reportAt), name), reportAt)
  {
  }

  method ExecuteScannerWithResilience(b: CircuitBreaker, name: string, policy: RetryPolicy, garbage: int,
                                      env: Environment, admitAt: int, reportAt: int)
    returns (result: CallResult, outcomes: seq<ScanOutcome>, slept: seq<int>)
    requires b.Valid()
    modifies b, b.scanners.Values
    ensures b.Valid()
    ensures result.Refused? <==> !Admits(b.policy, Lookup(old(b.View()), name), AllowAt(admitAt))
    ensures ProperReturn(Attempts(policy.maxAttempts), outcomes, result) && Follows(env, outcomes, result)
    ensures |slept| == Sleeps(outcomes, result)
    ensures outcomes != [] ==> |slept| == if result.Interrupted? then |outcomes| else |outcomes| - 1
    ensures forall i :: 0 <= i < |slept| ==> slept[i] == Backoff(policy, i + 1, garbage)
    ensures b.View() == AfterCall(b.policy, old(b.View()), name, result, admitAt, reportAt)
    ensures Told(result, Lookup(old(b.View()), name), Lookup(b.View(), name), reportAt)
  {
    ghost var circuitsBefore := b.View();
    outcomes, slept := [], [];
    var admitted := b.Allow(name, admitAt);
    if !admitted {
      CallTells(b.policy, circuitsBefore, name, Refused, admitAt, reportAt);
      return Refused, outcomes, slept;
    }
    ghost var before := b.View();
    ghost var circuits := b.scanners.Values;
    var attempts := Attempts(policy.maxAttempts);
    var attempt := 1;
    while attempt <= attempts
      invariant 1 <= attempt <= attempts
      invariant b.Valid() && b.View() == before && b.scanners.Values == circuits
      invariant |outcomes| == attempt - 1 && Retried(policy, garbage, env, outcomes, slept)
    {
      var err := env.scan(attempt);
      LeavesProperly(attempts, policy, garbage, env, outcomes, slept, OutcomeOf(err));
      outcomes := outcomes + [OutcomeOf(err)];
      if err == None {
        b.OnSuccess(name);
        CallTells(b.policy, circuitsBefore, name, Succeeded, admitAt, reportAt);
        return Succeeded, outcomes, slept;
      }
      var cls := Classify(err.value);
      if !Retryable(cls) || attempt == attempts {
        b.OnFailure(name, reportAt);
        CallTells(b.policy, circuitsBefore, name, FailedWith(cls), admitAt, reportAt);
        return FailedWith(cls), outcomes, slept;
      }
      slept := slept + [Backoff(policy, attempt, garbage)];
      if !env.wakes(attempt) {
        CallTells(b.policy, circuitsBefore, name, Interrupted, admitAt, reportAt);
        return Interrupted, outcomes, slept;
      }
      attempt := attempt + 1;
    }
    assert false;
  }

  lemma ScaleMonotone(a: nat, b: nat, c: int)
    requires a <= b && c >= 0
    ensures a * c <= b * c
  {
    assert b * c - a * c == (b - a) * c;
  }

  /** Whatever a call meets, its sleeps last at most (attempts - 1) * maxBackoff together. */
  lemma CallSleepBounded(p: RetryPolicy, garbage: int, outcomes: seq<ScanOutcome>, result: CallResult, slept: seq<int>)
    requires ProperReturn(Attempts(p.maxAttempts), outcomes, result) && p.maxBackoff >= 0
    requires |slept| == Sleeps(outcomes, result)
    requires forall i :: 0 <= i < |slept| ==> slept[i] == Backoff(p, i + 1, garbage)
    ensures Sum(slept) <= (Attempts(p.maxAttempts) - 1) * p.maxBackoff
  {
    SleepBounded(p, slept, garbage);
    ScaleMonotone(|slept|, Attempts(p.maxAttempts) - 1, p.maxBackoff);
  }
}
