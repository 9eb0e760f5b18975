/**
 The per-scanner circuit breaker as a state machine over observed calls.  Every breaker
 method runs under one mutex, so an execution is a sequence of atomic calls in which the
 calls of any number of concurrent scans are interleaved.
 Times are nanoseconds on an unbounded clock.
 */
module Breaker {
  import opened Clock

  datatype Policy = Policy(failureThreshold: int, openDuration: int, halfOpenMaxRequests: int)

  /** What configuration validation guarantees; openDuration is a 64-bit Duration. */
  ghost predicate Positive(p: Policy) {
    p.failureThreshold > 0 && 0 < p.openDuration <= MAX_DURATION && p.halfOpenMaxRequests > 0
  }

  datatype CircuitState = Closed | Open | HalfOpen

  datatype Circuit = Circuit(state: CircuitState, consecutiveFailures: int, openedAt: int, halfOpenInFlight: int)

  const FRESH: Circuit := Circuit(Closed, 0, ZERO_TIME, 0)

  // --- the three methods, on one circuit ---

  function Allow(p: Policy, c: Circuit, now: int): (Circuit, bool) {
    if c.state == Closed then
      (c, true)
    else if c.state == Open && Sub(now, c.openedAt) < p.openDuration then
      (c, false)
    else
      var h := if c.state == Open then c.(state := HalfOpen, halfOpenInFlight := 0) else c;
      if h.halfOpenInFlight >= p.halfOpenMaxRequests then (h, false)
      else (h.(halfOpenInFlight := h.halfOpenInFlight + 1), true)
  }

  function OnSuccess(c: Circuit): Circuit {
    match c.state
    case HalfOpen =>
      Circuit(Closed, 0, ZERO_TIME, if c.halfOpenInFlight > 0 then c.halfOpenInFlight - 1 else c.halfOpenInFlight)
    case Closed => c.(consecutiveFailures := 0)
    case Open => c
  }

  function OnFailure(p: Policy, c: Circuit, now: int): Circuit {
    match c.state
    case HalfOpen =>
      Circuit(Open, p.failureThreshold, now,
              if c.halfOpenInFlight > 0 then c.halfOpenInFlight - 1 else c.halfOpenInFlight)
    case Closed =>
      var d := c.(consecutiveFailures := c.consecutiveFailures + 1);
      if d.consecutiveFailures >= p.failureThreshold then d.(state := Open, openedAt := now) else d
    case Open => c
  }

  // --- executions ---

  datatype Call = AllowAt(at: int) | Success | FailureAt(at: int)

  function Next(p: Policy, c: Circuit, call: Call): Circuit {
    match call
    case AllowAt(t) => Allow(p, c, t).0
    case Success => OnSuccess(c)
    case FailureAt(t) => OnFailure(p, c, t)
  }

  predicate Admits(p: Policy, c: Circuit, call: Call) {
    call.AllowAt? && Allow(p, c, call.at).1
  }

  function Run(p: Policy, c: Circuit, calls: seq<Call>): Circuit {
    if calls == [] then c else Next(p, Run(p, c, calls[..|calls| - 1]), calls[|calls| - 1])
  }

  /** How many of the calls were admissions. */
  function Admissions(p: Policy, c: Circuit, calls: seq<Call>): nat {
    if calls == [] then 0
    else
      var rest := calls[..|calls| - 1];
      Admissions(p, c, rest) + if Admits(p, Run(p, c, rest), calls[|calls| - 1]) then 1 else 0
  }

  lemma {:induction false} RunConcat(p: Policy, c: Circuit, a: seq<Call>, b: seq<Call>)
    ensures Run(p, c, a + b) == Run(p, Run(p, c, a), b)
    ensures Admissions(p, c, a + b) == Admissions(p, c, a) + Admissions(p, Run(p, c, a), b)
  {
    if b == [] {
      assert a + b == a;
    } else {
      var i := b[..|b| - 1];
      assert (a + b)[..|a + b| - 1] == a + i;
      RunConcat(p, c, a, i);
    }
  }

  // --- what every reachable state satisfies ---

  /** Failures reported after the last reported success: read off the calls alone. */
  function TrailingFailures(calls: seq<Call>): nat {
    if calls == [] then 0
    else
      var rest := calls[..|calls| - 1];
      match calls[|calls| - 1]
      case AllowAt(_) => TrailingFailures(rest)
      case Success => 0
      case FailureAt(_) => TrailingFailures(rest) + 1
  }

  /** Admissions after the last reported outcome. */
  function AdmissionsSinceReport(p: Policy, c: Circuit, calls: seq<Call>): nat {
    if calls == [] || !calls[|calls| - 1].AllowAt? then 0
    else
      var rest := calls[..|calls| - 1];
      AdmissionsSinceReport(p, c, rest) + if Admits(p, Run(p, c, rest), calls[|calls| - 1]) then 1 else 0
  }

  /** Shape of a circuit, whatever led to it. */
  ghost predicate WellFormed(p: Policy, c: Circuit) {
    && (c.state == Closed ==> 0 <= c.consecutiveFailures < p.failureThreshold)
    && (c.state != Closed ==> c.consecutiveFailures == p.failureThreshold)
    && (c.state == HalfOpen ==> 1 <= c.halfOpenInFlight <= p.halfOpenMaxRequests)
  }

  lemma NextKeepsWellFormed(p: Policy, c: Circuit, call: Call)
    requires Positive(p) && WellFormed(p, c)
    ensures WellFormed(p, Next(p, c, call))
  {
  }

  /**
   A closed circuit counts exactly the failures since the last success; a half-open one
   counts exactly the admissions of its episode, for no outcome has been reported since the
   episode began (the first one would have ended it).
   */
  lemma {:induction false} ReachableState(p: Policy, calls: seq<Call>)
    requires Positive(p)
    ensures var c := Run(p, FRESH, calls);
            && WellFormed(p, c)
            && (c.state == Closed ==> c.consecutiveFailures == TrailingFailures(calls))
            && (c.state == Open ==> AdmissionsSinceReport(p, FRESH, calls) == 0)
            && (c.state == HalfOpen ==> c.halfOpenInFlight == AdmissionsSinceReport(p, FRESH, calls))
  {
    if calls == [] {
    } else {
      ReachableState(p, calls[..|calls| - 1]);
    }
  }

  // --- the rate bound ---

  /** Clock readings of the calls, taken in order within [lo, hi]. */
  ghost predicate ClockWithin(calls: seq<Call>, lo: int, hi: int) {
    && lo <= hi
    && (forall i :: 0 <= i < |calls| && !calls[i].Success? ==> lo <= calls[i].at <= hi)
    && (forall i, j :: 0 <= i < j < |calls| && !calls[i].Success? && !calls[j].Success? ==> calls[i].at <= calls[j].at)
  }

  ghost predicate NoHalfOpenSuccess(p: Policy, c: Circuit, calls: seq<Call>) {
    forall i :: 0 <= i < |calls| && calls[i].Success? ==> Run(p, c, calls[..i]).state != HalfOpen
  }

  function LastReading(calls: seq<Call>, start: int): int {
    if calls == [] then start
    else if calls[|calls| - 1].Success? then LastReading(calls[..|calls| - 1], start)
    else calls[|calls| - 1].at
  }

  lemma {:induction false} LastReadingWithin(calls: seq<Call>, lo: int, hi: int)
    requires ClockWithin(calls, lo, hi)
    ensures lo <= LastReading(calls, lo) <= hi
    ensures forall i :: 0 <= i < |calls| && !calls[i].Success? ==> calls[i].at <= LastReading(calls, lo)
  {
    if calls == [] {
    } else if calls[|calls| - 1].Success? {
      LastReadingWithin(calls[..|calls| - 1], lo, hi);
    }
  }

  /** Half-open episodes begun. */
  function Episodes(p: Policy, c: Circuit, calls: seq<Call>): nat {
    if calls == [] then 0
    else
      var rest := calls[..|calls| - 1];
      var d := Run(p, c, rest);
      Episodes(p, c, rest) +
      if d.state == Open && Next(p, d, calls[|calls| - 1]).state == HalfOpen then 1 else 0
  }

  /** After k episodes since t0, with a admissions, the clock last read at `last`. */
  ghost predicate EpisodesAccount(p: Policy, t0: int, d: Circuit, k: nat, a: nat, last: int) {
    && d.state != Closed
    && (d.state == Open ==>
          && a <= p.halfOpenMaxRequests * k
          && t0 + k * p.openDuration <= d.openedAt <= last)
    && (d.state == HalfOpen ==>
          && 1 <= k && 0 <= d.halfOpenInFlight <= p.halfOpenMaxRequests
          && a <= p.halfOpenMaxRequests * (k - 1) + d.halfOpenInFlight
          && t0 + k * p.openDuration <= last)
  }

  lemma AccountBounds(p: Policy, t0: int, d: Circuit, k: nat, a: nat, last: int)
    requires Positive(p) && EpisodesAccount(p, t0, d, k, a, last)
    ensures a <= p.halfOpenMaxRequests * k && k * p.openDuration <= last - t0
  {
    assert p.halfOpenMaxRequests * k == p.halfOpenMaxRequests * (k - 1) + p.halfOpenMaxRequests;
  }

  lemma EpisodesAccountStep(p: Policy, t0: int, d: Circuit, k: nat, a: nat, last: int, call: Call,
                            e: Circuit, l: nat, b: nat, read: int)
    requires Positive(p)
    requires EpisodesAccount(p, t0, d, k, a, last)
    requires call.Success? ==> d.state != HalfOpen
    requires !call.Success? ==> last <= call.at
    requires e == Next(p, d, call) && l == k + if d.state == Open && e.state == HalfOpen then 1 else 0
    requires b == a + if Admits(p, d, call) then 1 else 0
    requires read == if call.Success? then last else call.at
    ensures EpisodesAccount(p, t0, e, l, b, read)
  {
    var D, H := p.openDuration, p.halfOpenMaxRequests;
    assert (k + 1) * D == k * D + D;
    assert H * k == H * (k - 1) + H;
  }

  lemma WindowPrefix(p: Policy, c: Circuit, calls: seq<Call>, hi: int)
    requires calls != [] && ClockWithin(calls, c.openedAt, hi) && NoHalfOpenSuccess(p, c, calls)
    ensures var rest, last := calls[..|calls| - 1], calls[|calls| - 1];
            && ClockWithin(rest, c.openedAt, hi) && NoHalfOpenSuccess(p, c, rest)
            && (last.Success? ==> Run(p, c, rest).state != HalfOpen)
            && (!last.Success? ==> LastReading(rest, c.openedAt) <= last.at)
  {
    var rest := calls[..|calls| - 1];
    assert forall i :: 0 <= i < |rest| ==> calls[..i] == rest[..i];
    LastReadingIsARead(rest, c.openedAt);
  }

  lemma OneMoreCall(p: Policy, c: Circuit, calls: seq<Call>)
    requires calls != []
    ensures var rest, call := calls[..|calls| - 1], calls[|calls| - 1];
            var d := Run(p, c, rest);
            && Run(p, c, calls) == Next(p, d, call)
            && Episodes(p, c, calls) ==
                 Episodes(p, c, rest) + (if d.state == Open && Next(p, d, call).state == HalfOpen then 1 else 0)
            && Admissions(p, c, calls) == Admissions(p, c, rest) + (if Admits(p, d, call) then 1 else 0)
            && LastReading(calls, c.openedAt) == if call.Success? then LastReading(rest, c.openedAt) else call.at
  {
  }

  lemma {:induction false} EpisodesTakeTime(p: Policy, c: Circuit, calls: seq<Call>, hi: int)
    requires Positive(p)
    requires c.state == Open
    requires ClockWithin(calls, c.openedAt, hi) && NoHalfOpenSuccess(p, c, calls)
    ensures EpisodesAccount(p, c.openedAt, Run(p, c, calls), Episodes(p, c, calls),
                            Admissions(p, c, calls), LastReading(calls, c.openedAt))
  {
    if calls == [] {
    } else {
      var n := |calls| - 1;
      var rest := calls[..n];
      WindowPrefix(p, c, calls, hi);
      EpisodesTakeTime(p, c, rest, hi);
      OneMoreCall(p, c, calls);
      EpisodesAccountStep(p, c.openedAt, Run(p, c, rest), Episodes(p, c, rest),
                          Admissions(p, c, rest), LastReading(rest, c.openedAt), calls[n],
                          Run(p, c, calls), Episodes(p, c, calls), Admissions(p, c, calls),
                          LastReading(calls, c.openedAt));
    }
  }

  lemma {:induction false} LastReadingIsARead(calls: seq<Call>, start: int)
    ensures LastReading(calls, start) == start ||
            exists i :: 0 <= i < |calls| && !calls[i].Success? && calls[i].at == LastReading(calls, start)
  {
    if calls == [] {
    } else if calls[|calls| - 1].Success? {
      LastReadingIsARead(calls[..|calls| - 1], start);
    }
  }

  /**
   From the instant a circuit is open, and as long as no probe succeeds, a window of length
   T admits at most halfOpenMaxRequests * floor(T / openDuration) calls, however admissions
   and late outcomes interleave.
   */
  lemma RateBound(p: Policy, c: Circuit, calls: seq<Call>, T: nat)
    requires Positive(p)
    requires c.state == Open
    requires ClockWithin(calls, c.openedAt, c.openedAt + T) && NoHalfOpenSuccess(p, c, calls)
    ensures Admissions(p, c, calls) <= p.halfOpenMaxRequests * (T / p.openDuration)
  {
    EpisodesTakeTime(p, c, calls, c.openedAt + T);
    LastReadingWithin(calls, c.openedAt, c.openedAt + T);
    var k := Episodes(p, c, calls);
    AccountBounds(p, c.openedAt, Run(p, c, calls), k, Admissions(p, c, calls), LastReading(calls, c.openedAt));
    FloorBound(k, p.openDuration, T);
    MulMonotone(p.halfOpenMaxRequests, k, T / p.openDuration);
  }

  /** The report that opens a circuit starts its clock: the window may be measured from that report. */
  lemma RateBoundFromReport(p: Policy, c: Circuit, t: int, later: seq<Call>, T: nat)
    requires Positive(p) && c.state != Open
    requires var d := Next(p, c, FailureAt(t));
             d.state == Open && ClockWithin(later, t, t + T) && NoHalfOpenSuccess(p, d, later)
    ensures Admissions(p, Next(p, c, FailureAt(t)), later) <= p.halfOpenMaxRequests * (T / p.openDuration)
  {
    RateBound(p, Next(p, c, FailureAt(t)), later, T);
  }

  /** ... in every run of a fresh circuit, whatever came before that report. */
  lemma RunRateBound(p: Policy, before: seq<Call>, t: int, later: seq<Call>, T: nat)
    requires Positive(p) && Run(p, FRESH, before).state != Open
    requires var d := Run(p, FRESH, before + [FailureAt(t)]);
             d.state == Open && ClockWithin(later, t, t + T) && NoHalfOpenSuccess(p, d, later)
    ensures Admissions(p, FRESH, before + [FailureAt(t)] + later) - Admissions(p, FRESH, before)
         <= p.halfOpenMaxRequests * (T / p.openDuration)
  {
    assert (before + [FailureAt(t)])[..|before|] == before;
    RunConcat(p, FRESH, before + [FailureAt(t)], later);
    RateBoundFromReport(p, Run(p, FRESH, before), t, later, T);
  }

  lemma FloorBound(k: nat, d: int, t: nat)
    requires d > 0 && k * d <= t
    ensures k <= t / d
  {
    assert t == d * (t / d) + t % d;
    if k > t / d {
      MulMonotone(d, t / d + 1, k);
    }
  }

  lemma MulMonotone(h: int, a: int, b: int)
    requires h >= 0 && a <= b
    ensures h * a <= h * b
  {
    assert h * b - h * a == h * (b - a);
  }

  // --- the bound is attained ---

  function Repeat(call: Call, n: nat): seq<Call> {
    if n == 0 then [] else Repeat(call, n - 1) + [call]
  }

  /** One full episode of failing probes, all at time t. */
  function FailingEpisode(p: Policy, t: int): seq<Call>
    requires Positive(p)
  {
    Repeat(AllowAt(t), p.halfOpenMaxRequests) + [FailureAt(t)]
  }

  /** The calls are n requests at time t, all admitted. */
  ghost predicate Probes(p: Policy, c: Circuit, t: int, calls: seq<Call>, n: nat) {
    && Admissions(p, c, calls) == n && |calls| == n
    && (forall i :: 0 <= i < n ==> calls[i] == AllowAt(t))
    && Run(p, c, calls) == if n > 0 then c.(state := HalfOpen, halfOpenInFlight := n) else c
  }

  lemma OneMoreProbe(p: Policy, c: Circuit, t: int, calls: seq<Call>, n: nat)
    requires Positive(p) && c.state == Open && t == c.openedAt + p.openDuration
    requires Probes(p, c, t, calls, n) && n < p.halfOpenMaxRequests
    ensures Probes(p, c, t, calls + [AllowAt(t)], n + 1)
  {
    assert (calls + [AllowAt(t)])[..n] == calls;
  }

  lemma {:induction false} ProbesAdmitted(p: Policy, c: Circuit, t: int, n: nat)
    requires Positive(p) && c.state == Open && t == c.openedAt + p.openDuration
    requires n <= p.halfOpenMaxRequests
    ensures Probes(p, c, t, Repeat(AllowAt(t), n), n)
  {
    if n == 0 {
    } else {
      ProbesAdmitted(p, c, t, n - 1);
      OneMoreProbe(p, c, t, Repeat(AllowAt(t), n - 1), n - 1);
    }
  }

  ghost predicate AllAt(calls: seq<Call>, t: int) {
    forall i :: 0 <= i < |calls| ==> !calls[i].Success? && calls[i].at == t
  }

  /** Calls made up to time t, followed by calls all made at t. */
  lemma WindowExtends(before: seq<Call>, calls: seq<Call>, lo: int, hi: int, t: int)
    requires ClockWithin(before, lo, hi) && hi <= t && AllAt(calls, t)
    requires forall i :: 0 <= i < |before| ==> !before[i].Success?
    ensures ClockWithin(before + calls, lo, t)
    ensures forall i :: 0 <= i < |before + calls| ==> !(before + calls)[i].Success?
  {
  }

  lemma EpisodeRuns(p: Policy, c: Circuit, t: int)
    requires Positive(p)
    requires c.state == Open && t == c.openedAt + p.openDuration
    ensures var calls := FailingEpisode(p, t);
            && Admissions(p, c, calls) == p.halfOpenMaxRequests
            && Run(p, c, calls).state == Open && Run(p, c, calls).openedAt == t
            && AllAt(calls, t)
  {
    var n := p.halfOpenMaxRequests;
    ProbesAdmitted(p, c, t, n);
    assert FailingEpisode(p, t)[..n] == Repeat(AllowAt(t), n);
  }

  /** The calls amount to k episodes of failing probes, ending with the circuit open. */
  ghost predicate Saturates(p: Policy, c: Circuit, calls: seq<Call>, k: nat) {
    && Admissions(p, c, calls) == k * p.halfOpenMaxRequests
    && Run(p, c, calls).state == Open
    && Run(p, c, calls).openedAt == c.openedAt + k * p.openDuration
    && (forall i :: 0 <= i < |calls| ==> !calls[i].Success?)
    && ClockWithin(calls, c.openedAt, c.openedAt + k * p.openDuration)
  }

  lemma OneMore(k: int, x: int)
    ensures k * x == (k - 1) * x + x
  {
  }

  lemma SaturatesMore(p: Policy, c: Circuit, before: seq<Call>, k: nat, t: int)
    requires Positive(p) && c.state == Open && k > 0 && Saturates(p, c, before, k - 1)
    requires t == c.openedAt + k * p.openDuration
    ensures Saturates(p, c, before + FailingEpisode(p, t), k)
  {
    OneMore(k, p.openDuration);
    OneMore(k, p.halfOpenMaxRequests);
    EpisodeRuns(p, Run(p, c, before), t);
    RunConcat(p, c, before, FailingEpisode(p, t));
    WindowExtends(before, FailingEpisode(p, t), c.openedAt, t - p.openDuration, t);
  }

  /** k such episodes, each begun the moment the circuit lets it. */
  lemma {:induction false} SaturatingRuns(p: Policy, c: Circuit, k: nat) returns (calls: seq<Call>)
    requires Positive(p) && c.state == Open
    ensures Saturates(p, c, calls, k)
  {
    if k == 0 {
      calls := [];
    } else {
      var t := c.openedAt + k * p.openDuration;
      var before := SaturatingRuns(p, c, k - 1);
      SaturatesMore(p, c, before, k, t);
      calls := before + FailingEpisode(p, t);
    }
  }

  lemma FloorFits(t: nat, d: int)
    requires d > 0
    ensures t / d * d <= t && t / d >= 0
  {
  }

  lemma WindowWidens(calls: seq<Call>, lo: int, hi: int, wider: int)
    requires ClockWithin(calls, lo, hi) && hi <= wider
    ensures ClockWithin(calls, lo, wider)
  {
  }

  /** For every policy and window there is an execution that admits exactly the bound. */
  lemma RateBoundAttained(p: Policy, c: Circuit, T: nat) returns (calls: seq<Call>)
    requires Positive(p) && c.state == Open
    ensures ClockWithin(calls, c.openedAt, c.openedAt + T) && NoHalfOpenSuccess(p, c, calls)
    ensures Admissions(p, c, calls) == p.halfOpenMaxRequests * (T / p.openDuration)
  {
    var k := T / p.openDuration;
    FloorFits(T, p.openDuration);
    calls := SaturatingRuns(p, c, k);
    WindowWidens(calls, c.openedAt, c.openedAt + k * p.openDuration, c.openedAt + T);
    assert k * p.halfOpenMaxRequests == p.halfOpenMaxRequests * k;
  }

  // --- late outcomes and the way back ---

  /** While open, nothing but an admission request after openDuration changes the circuit. */
  lemma OpenIsInert(p: Policy, c: Circuit, call: Call)
    requires c.state == Open && Positive(p)
    ensures Next(p, c, call) != c <==> call.AllowAt? && call.at >= c.openedAt + p.openDuration
    ensures Admits(p, c, call) <==> call.AllowAt? && call.at >= c.openedAt + p.openDuration
  {
  }

  /** The circuit after the first i calls of a fresh one. */
  function At(p: Policy, calls: seq<Call>, i: nat): Circuit
    requires i <= |calls|
  {
    Run(p, FRESH, calls[..i])
  }

  lemma AtPrefix(p: Policy, calls: seq<Call>, m: nat)
    requires m <= |calls|
    ensures forall i :: 0 <= i <= m ==> At(p, calls[..m], i) == At(p, calls, i)
  {
    forall i | 0 <= i <= m ensures At(p, calls[..m], i) == At(p, calls, i) {
      assert calls[..m][..i] == calls[..i];
    }
  }

  lemma AtNext(p: Policy, calls: seq<Call>, m: nat)
    requires m < |calls|
    ensures At(p, calls, m + 1) == Next(p, At(p, calls, m), calls[m])
  {
    assert calls[..m + 1][..m] == calls[..m];
  }

  ghost predicate ClosedSince(p: Policy, calls: seq<Call>, n: nat) {
    && n <= |calls|
    && (n > 0 ==> calls[n - 1].Success? && At(p, calls, n - 1).state == HalfOpen)
    && forall i :: n <= i <= |calls| ==> At(p, calls, i).state == Closed
  }

  ghost predicate OpenSince(p: Policy, calls: seq<Call>, n: nat, openedAt: int) {
    && 0 < n <= |calls|
    && calls[n - 1] == FailureAt(openedAt) && At(p, calls, n - 1).state != Open
    && forall i :: n <= i < |calls| && calls[i].AllowAt? ==> calls[i].at < openedAt + p.openDuration
  }

  ghost predicate HalfOpenSince(p: Policy, calls: seq<Call>, n: nat) {
    && 0 < n <= |calls|
    && calls[n - 1].AllowAt? && At(p, calls, n - 1).state == Open
    && calls[n - 1].at >= At(p, calls, n - 1).openedAt + p.openDuration
    && forall i :: n <= i < |calls| ==> calls[i].AllowAt?
  }

  /** Call n brought the present state about, and nothing since was of a kind to end it. */
  ghost predicate Since(p: Policy, calls: seq<Call>, n: nat) {
    var c := At(p, calls, |calls|);
    match c.state
    case Closed => ClosedSince(p, calls, n)
    case Open => OpenSince(p, calls, n, c.openedAt)
    case HalfOpen => HalfOpenSince(p, calls, n)
  }

  lemma KeepsState(p: Policy, c: Circuit, call: Call)
    requires Positive(p) && Next(p, c, call).state == c.state
    ensures c.state == Open ==>
              Next(p, c, call).openedAt == c.openedAt && (call.AllowAt? ==> call.at < c.openedAt + p.openDuration)
    ensures c.state == HalfOpen ==> call.AllowAt?
  {
  }

  /** The last call changed nothing: what brought the state about still did. */
  lemma SinceKept(p: Policy, calls: seq<Call>, n: nat)
    requires Positive(p) && calls != [] && Since(p, calls[..|calls| - 1], n)
    requires At(p, calls, |calls|).state == At(p, calls, |calls| - 1).state
    ensures Since(p, calls, n)
  {
    var m := |calls| - 1;
    AtPrefix(p, calls, m);
    AtNext(p, calls, m);
    KeepsState(p, At(p, calls, m), calls[m]);
    match At(p, calls, m).state {
      case Closed =>
      case Open => assert OpenSince(p, calls, n, At(p, calls, m).openedAt);
      case HalfOpen => assert HalfOpenSince(p, calls, n);
    }
  }

  lemma SinceBegins(p: Policy, calls: seq<Call>)
    requires Positive(p) && calls != []
    requires At(p, calls, |calls|).state != At(p, calls, |calls| - 1).state
    ensures Since(p, calls, |calls|)
  {
    AtNext(p, calls, |calls| - 1);
  }

  /**
   Every reachable circuit owes its state to the calls alone.  Closed: never opened, or closed by
   a success while half-open.  Open: opened by a failure reported at openedAt while it was not
   open, and not asked since at that instant plus openDuration or later.  Half-open: asked then,
   with no outcome reported since.
   */
  lemma {:induction false} StateSince(p: Policy, calls: seq<Call>) returns (n: nat)
    requires Positive(p)
    ensures calls[..|calls|] == calls && Since(p, calls, n)
  {
    if calls == [] {
      n := 0;
    } else {
      var m := |calls| - 1;
      AtPrefix(p, calls, m);
      n := StateSince(p, calls[..m]);
      if At(p, calls, |calls|).state == At(p, calls, m).state {
        SinceKept(p, calls, n);
      } else {
        n := |calls|;
        SinceBegins(p, calls);
      }
    }
  }

  /** An outcome ends a half-open episode: a success closes the circuit, a failure opens it again. */
  lemma EpisodeEnds(p: Policy, c: Circuit, call: Call)
    requires Positive(p) && WellFormed(p, c) && c.state == HalfOpen && !call.AllowAt?
    ensures Next(p, c, call).state == if call.Success? then Closed else Open
    ensures Next(p, c, call).halfOpenInFlight == c.halfOpenInFlight - 1
  {
  }

  // --- many scanners ---

  type Circuits = map<string, Circuit>

  datatype NamedCall = NamedCall(scanner: string, call: Call)

  /** getOrCreate, as a view: an unknown scanner has a closed circuit. */
  function Lookup(m: Circuits, name: string): Circuit {
    if name in m then m[name] else FRESH
  }

  function NextAll(p: Policy, m: Circuits, n: NamedCall): Circuits {
    m[n.scanner := Next(p, Lookup(m, n.scanner), n.call)]
  }

  function RunAll(p: Policy, m: Circuits, calls: seq<NamedCall>): Circuits {
    if calls == [] then m else NextAll(p, RunAll(p, m, calls[..|calls| - 1]), calls[|calls| - 1])
  }

  function CallsOf(calls: seq<NamedCall>, name: string): seq<Call> {
    if calls == [] then []
    else
      var last := calls[|calls| - 1];
      CallsOf(calls[..|calls| - 1], name) + if last.scanner == name then [last.call] else []
  }

  /** Scanners do not disturb each other: each circuit runs on its own calls alone. */
  lemma {:induction false} ScannersIndependent(p: Policy, m: Circuits, calls: seq<NamedCall>, name: string)
    ensures Lookup(RunAll(p, m, calls), name) == Run(p, Lookup(m, name), CallsOf(calls, name))
  {
    if calls == [] {
    } else {
      ScannersIndependent(p, m, calls[..|calls| - 1], name);
      var own := CallsOf(calls, name);
      if calls[|calls| - 1].scanner == name {
        assert own[..|own| - 1] == CallsOf(calls[..|calls| - 1], name);
      } else {
        assert own == CallsOf(calls[..|calls| - 1], name);
      }
    }
  }
}
