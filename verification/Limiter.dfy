/**
 The adaptive rate limiter: its rate falls from maxRPS to minRPS as the share of failed scans
 rises to a threshold.  Rates are real numbers; floating-point rounding is not modelled.
 */
module Limiter {
  import opened Wrappers

  datatype Params = Params(minRPS: real, maxRPS: real, threshold: real)

  /** NewAdaptiveLimiter's corrections of its arguments. */
  function New(maxRPS: real, minRPS: real, threshold: real): (p: Params)
    ensures Proper(p)
    ensures minRPS > 0.0 ==> p.minRPS > 0.0
    ensures maxRPS > 0.0 ==> p.maxRPS == maxRPS
  {
    var max := if maxRPS <= 0.0 then 1.0 else maxRPS;
    var floor := if minRPS < 0.0 then 0.0 else minRPS;
    var min := if floor > max then max else floor;
    Params(min, max, if threshold <= 0.0 || threshold > 1.0 then 0.5 else threshold)
  }

  predicate Proper(p: Params) {
    0.0 <= p.minRPS <= p.maxRPS && p.maxRPS > 0.0 && 0.0 < p.threshold <= 1.0
  }

  function ErrorRate(total: nat, errors: nat): real {
    if total == 0 then 0.0 else errors as real / total as real
  }

  function RateAt(p: Params, errRate: real): real
    requires Proper(p)
  {
    if errRate >= p.threshold then p.minRPS
    else if errRate <= 0.0 then p.maxRPS
    else p.maxRPS - errRate / p.threshold * (p.maxRPS - p.minRPS)
  }

  function EffectiveRPS(p: Params, total: nat, errors: nat): real
    requires Proper(p)
  {
    RateAt(p, ErrorRate(total, errors))
  }

  // --- arithmetic ---

  lemma MulLe(a: real, b: real, c: real)
    requires a <= b && c >= 0.0
    ensures a * c <= b * c
  {
    assert b * c - a * c == (b - a) * c;
  }

  lemma CancelPositive(x: real, y: real, k: real)
    requires k > 0.0 && x * k <= y * k
    ensures x <= y
  {
    assert (x - y) * k == x * k - y * k;
  }

  lemma DivLe(a: real, b: real, c: real, d: real)
    requires b > 0.0 && d > 0.0 && a * d <= c * b
    ensures a / b <= c / d
  {
    var x, y := a / b, c / d;
    assert a == x * b && c == y * d;
    calc {
      x * (b * d);
      (x * b) * d;
      a * d;
    }
    calc {
      y * (b * d);
      (y * d) * b;
      c * b;
    }
    assert b * d > 0.0;
    CancelPositive(x, y, b * d);
  }

  lemma DivMonotone(a: real, c: real, d: real)
    requires a <= c && d > 0.0
    ensures a / d <= c / d
  {
    MulLe(a, c, d);
    DivLe(a, d, c, d);
  }

  /** e / n < t exactly when e < t * n. */
  lemma DivLess(e: real, n: real, t: real)
    requires n > 0.0
    ensures e / n < t <==> e < t * n
  {
    var x := e / n;
    assert e == x * n;
    assert t * n - x * n == (t - x) * n;
  }

  // --- the rate as a function of the error share ---

  lemma MulLess(a: real, b: real, c: real)
    requires a < b && c > 0.0
    ensures a * c < b * c
  {
    MulLe(a, b, c);
    if a * c == b * c {
      CancelPositive(b, a, c);
    }
  }

  lemma Slope(p: Params, x: real)
    requires Proper(p) && 0.0 <= x < p.threshold
    ensures p.minRPS <= p.maxRPS - x / p.threshold * (p.maxRPS - p.minRPS) <= p.maxRPS
    ensures p.minRPS < p.maxRPS ==> p.minRPS < p.maxRPS - x / p.threshold * (p.maxRPS - p.minRPS)
  {
    var r, w := x / p.threshold, p.maxRPS - p.minRPS;
    DivLe(0.0, 1.0, x, p.threshold);
    DivLess(x, p.threshold, 1.0);
    assert 0.0 / 1.0 == 0.0 && 0.0 <= r < 1.0;
    SlopeAt(p, r, w);
  }

  lemma SlopeAt(p: Params, r: real, w: real)
    requires Proper(p) && 0.0 <= r < 1.0 && w == p.maxRPS - p.minRPS
    ensures p.minRPS <= p.maxRPS - r * w <= p.maxRPS
    ensures p.minRPS < p.maxRPS ==> p.minRPS < p.maxRPS - r * w
  {
    MulLe(0.0, r, w);
    MulLe(r, 1.0, w);
    if w > 0.0 {
      MulLess(r, 1.0, w);
    }
  }

  lemma RateInRange(p: Params, x: real)
    requires Proper(p) && 0.0 <= x
    ensures p.minRPS <= RateAt(p, x) <= p.maxRPS
    ensures p.minRPS < p.maxRPS ==> (RateAt(p, x) > p.minRPS <==> x < p.threshold)
  {
    if x < p.threshold {
      Slope(p, x);
    }
  }

  lemma RateFalls(p: Params, x: real, y: real)
    requires Proper(p) && 0.0 <= x <= y
    ensures RateAt(p, x) >= RateAt(p, y)
  {
    RateInRange(p, x);
    RateInRange(p, y);
    if 0.0 < x && y < p.threshold {
      DivMonotone(x, y, p.threshold);
      MulLe(x / p.threshold, y / p.threshold, p.maxRPS - p.minRPS);
    }
  }

  lemma ShareOf(x: real, y: real, w: real)
    requires y > 0.0
    ensures x / y * w * y == x * w
  {
    var r := x / y;
    assert x == r * y;
    assert r * w * y == r * y * w;
  }

  /** Up to the threshold the rate falls in proportion to the error share: by all of its range at the threshold. */
  lemma RateLinear(p: Params, x: real)
    requires Proper(p) && 0.0 <= x <= p.threshold
    ensures (p.maxRPS - RateAt(p, x)) * p.threshold == x * (p.maxRPS - p.minRPS)
  {
    ShareOf(x, p.threshold, p.maxRPS - p.minRPS);
  }

  /** Beyond the threshold it stays at the minimum. */
  lemma RateAtFloor(p: Params, x: real)
    requires Proper(p) && x >= p.threshold
    ensures RateAt(p, x) == p.minRPS
  {
  }

  /** Arguments in range are kept, one by one; the others are replaced or cut to the range. */
  lemma NewKeeps(maxRPS: real, minRPS: real, threshold: real)
    ensures Proper(Params(minRPS, maxRPS, threshold)) ==>
              New(maxRPS, minRPS, threshold) == Params(minRPS, maxRPS, threshold)
    ensures var p := New(maxRPS, minRPS, threshold);
            && p.maxRPS == (if maxRPS > 0.0 then maxRPS else 1.0)
            && p.threshold == (if 0.0 < threshold <= 1.0 then threshold else 0.5)
            && (0.0 <= minRPS <= p.maxRPS ==> p.minRPS == minRPS)
            && (minRPS < 0.0 ==> p.minRPS == 0.0) && (minRPS > p.maxRPS ==> p.minRPS == p.maxRPS)
  {
  }

  lemma ErrorRateMoves(total: nat, errors: nat)
    requires errors <= total
    ensures 0.0 <= ErrorRate(total, errors) <= ErrorRate(total + 1, errors + 1)
    ensures 0.0 <= ErrorRate(total + 1, errors) <= ErrorRate(total, errors)
  {
    var n, e := total as real, errors as real;
    DivLe(0.0, 1.0, e, n + 1.0);
    DivLe(0.0, 1.0, e + 1.0, n + 1.0);
    assert 0.0 / 1.0 == 0.0;
    if total > 0 {
      DivLe(0.0, 1.0, e, n);
      assert e * (n + 1.0) == e * n + e && (e + 1.0) * n == e * n + n;
      DivLe(e, n, e + 1.0, n + 1.0);
      DivLe(e, n + 1.0, e, n);
    }
  }

  // --- histories ---

  function Errors(history: seq<bool>): (e: nat)
    ensures e <= |history|
  {
    if history == [] then 0 else Errors(history[..|history| - 1]) + if history[|history| - 1] then 1 else 0
  }

  /** The effective rate once these results (true for an error) have been recorded. */
  function RateAfter(p: Params, history: seq<bool>): real
    requires Proper(p)
  {
    EffectiveRPS(p, |history|, Errors(history))
  }

  lemma ErrorRateNonNegative(total: nat, errors: nat)
    ensures ErrorRate(total, errors) >= 0.0
  {
    if total > 0 {
      DivLe(0.0, 1.0, errors as real, total as real);
      assert 0.0 / 1.0 == 0.0;
    }
  }

  /** Over every history the rate stays within bounds, never rises on an error and never falls on a success. */
  lemma RateOverHistories(p: Params, history: seq<bool>)
    requires Proper(p)
    ensures p.minRPS <= RateAfter(p, history) <= p.maxRPS
    ensures RateAfter(p, history + [true]) <= RateAfter(p, history) <= RateAfter(p, history + [false])
  {
    var n, e := |history|, Errors(history);
    assert (history + [true])[..n] == history && (history + [false])[..n] == history;
    ErrorRateMoves(n, e);
    ErrorRateNonNegative(n, e);
    RateInRange(p, ErrorRate(n, e));
    RateFalls(p, ErrorRate(n, e), ErrorRate(n + 1, e + 1));
    RateFalls(p, ErrorRate(n + 1, e), ErrorRate(n, e));
  }

  function Successes(k: nat): (s: seq<bool>)
    ensures |s| == k
  {
    if k == 0 then [] else Successes(k - 1) + [false]
  }

  lemma {:induction false} ErrorsThenSuccesses(history: seq<bool>, k: nat)
    ensures Errors(history + Successes(k)) == Errors(history)
  {
    if k == 0 {
      assert history + Successes(0) == history;
    } else {
      var s := history + Successes(k);
      assert s[..|s| - 1] == history + Successes(k - 1);
      ErrorsThenSuccesses(history, k - 1);
    }
  }

  /** The errors number fewer than the threshold's share of the results. */
  predicate BelowThreshold(p: Params, total: nat, errors: nat) {
    total == 0 || p.threshold * total as real > errors as real
  }

  predicate OffFloor(p: Params, rate: real) {
    rate > p.minRPS
  }

  lemma AboveFloor(p: Params, total: nat, errors: nat, rate: real)
    requires Proper(p) && p.minRPS < p.maxRPS && errors <= total && rate == EffectiveRPS(p, total, errors)
    ensures OffFloor(p, rate) <==> BelowThreshold(p, total, errors)
  {
    ErrorRateNonNegative(total, errors);
    RateInRange(p, ErrorRate(total, errors));
    if total > 0 {
      DivLess(errors as real, total as real, p.threshold);
    }
  }

  lemma CountsLater(history: seq<bool>, k: nat)
    ensures |history + Successes(k)| == |history| + k && Errors(history + Successes(k)) == Errors(history)
    ensures Errors(history) <= |history| + k
  {
    ErrorsThenSuccesses(history, k);
  }

  lemma AboveFloorAfter(p: Params, history: seq<bool>, n: nat, e: nat)
    requires Proper(p) && p.minRPS < p.maxRPS && |history| == n && Errors(history) == e
    ensures OffFloor(p, RateAfter(p, history)) <==> BelowThreshold(p, n, e)
  {
    AboveFloor(p, n, e, RateAfter(p, history));
  }

  /**
   Recovery: once k more successes have made n results, of which e are errors, the rate is above
   its floor exactly when threshold * n > e, or when nothing has been recorded.
   */
  lemma RecoversExactly(p: Params, history: seq<bool>, k: nat, n: nat)
    requires Proper(p) && p.minRPS < p.maxRPS && n == |history| + k
    ensures OffFloor(p, RateAfter(p, history + Successes(k))) <==> BelowThreshold(p, n, Errors(history))
  {
    CountsLater(history, k);
    AboveFloorAfter(p, history + Successes(k), n, Errors(history));
  }

  // --- concurrent recording ---

  /** Counters move under the lock; the computed rate is installed after it is released. */
  datatype Shared = Shared(history: seq<bool>, pending: seq<real>, installed: real)

  datatype Action = Record(isError: bool) | Install(i: nat)

  ghost predicate Enabled(s: Shared, a: Action) {
    a.Install? ==> a.i < |s.pending|
  }

  function Step(p: Params, s: Shared, a: Action): Shared
    requires Proper(p) && (a.Install? ==> a.i < |s.pending|)
  {
    match a
    case Record(isError) =>
      var h := s.history + [isError];
      s.(history := h, pending := s.pending + [RateAfter(p, h)])
    case Install(i) => s.(installed := s.pending[i], pending := s.pending[..i] + s.pending[i + 1..])
  }

  ghost function Execute(p: Params, actions: seq<Action>): Option<Shared>
    requires Proper(p)
  {
    if actions == [] then Some(Shared([], [], p.maxRPS))
    else
      match Execute(p, actions[..|actions| - 1])
      case None => None
      case Some(s) =>
        if Enabled(s, actions[|actions| - 1]) then Some(Step(p, s, actions[|actions| - 1])) else None
  }

  ghost predicate FromPrefix(p: Params, history: seq<bool>, rate: real)
    requires Proper(p)
  {
    exists k: nat :: k <= |history| && rate == RateAfter(p, history[..k])
  }

  lemma FromPrefixGrows(p: Params, history: seq<bool>, b: bool, rate: real)
    requires Proper(p) && FromPrefix(p, history, rate)
    ensures FromPrefix(p, history + [b], rate)
  {
    var k: nat :| k <= |history| && rate == RateAfter(p, history[..k]);
    assert (history + [b])[..k] == history[..k];
  }

  /** However recordings and installations interleave, the installed rate is that of some recorded prefix. */
  lemma {:induction false} InstalledFromPrefix(p: Params, actions: seq<Action>, s: Shared)
    requires Proper(p) && Execute(p, actions) == Some(s)
    ensures FromPrefix(p, s.history, s.installed)
    ensures forall r :: r in s.pending ==> FromPrefix(p, s.history, r)
  {
    if actions == [] {
      assert RateAfter(p, s.history[..0]) == p.maxRPS;
    } else {
      var t, a := Execute(p, actions[..|actions| - 1]).value, actions[|actions| - 1];
      InstalledFromPrefix(p, actions[..|actions| - 1], t);
      match a {
        case Record(b) =>
          assert s.history[..|s.history|] == s.history;
          FromPrefixGrows(p, t.history, b, t.installed);
          forall r | r in s.pending ensures FromPrefix(p, s.history, r) {
            if r in t.pending {
              FromPrefixGrows(p, t.history, b, r);
            }
          }
        case Install(i) =>
          assert t.pending[i] in t.pending;
      }
    }
  }

  // --- when the installed rate is the current one ---

  /** A schedule: which calls record and install in which order, whatever their results. */
  datatype Event = Recording | Installing(i: nat)

  /** Recordings numbered from 1: how many there were, those whose rate waits, and the one whose rate is installed. */
  datatype Tickets = Tickets(recorded: nat, waiting: seq<nat>, installed: nat)

  ghost function Issue(events: seq<Event>): Option<Tickets> {
    if events == [] then Some(Tickets(0, [], 0))
    else
      match Issue(events[..|events| - 1])
      case None => None
      case Some(t) => TicketsAfter(t, events[|events| - 1])
  }

  function TicketsAfter(t: Tickets, e: Event): Option<Tickets> {
    match e
    case Recording => Some(t.(recorded := t.recorded + 1, waiting := t.waiting + [t.recorded + 1]))
    case Installing(i) =>
      if i < |t.waiting| then Some(t.(installed := t.waiting[i], waiting := t.waiting[..i] + t.waiting[i + 1..]))
      else None
  }

  function Recordings(events: seq<Event>): nat {
    if events == [] then 0 else Recordings(events[..|events| - 1]) + if events[|events| - 1].Recording? then 1 else 0
  }

  /** The schedule with these results. */
  function Play(events: seq<Event>, results: seq<bool>): seq<Action>
    requires |results| == Recordings(events)
  {
    if events == [] then []
    else
      var rest, n := events[..|events| - 1], |results| - 1;
      match events[|events| - 1]
      case Recording => Play(rest, results[..n]) + [Record(results[n])]
      case Installing(i) => Play(rest, results) + [Install(i)]
  }

  ghost predicate TicketRates(p: Params, s: Shared, t: Tickets)
    requires Proper(p)
  {
    && t.recorded == |s.history| && t.installed <= t.recorded && |t.waiting| == |s.pending|
    && (forall i :: 0 <= i < |t.waiting| ==> t.waiting[i] <= t.recorded)
    && (forall i :: 0 <= i < |t.waiting| ==> s.pending[i] == RateAfter(p, s.history[..t.waiting[i]]))
    && s.installed == RateAfter(p, s.history[..t.installed])
  }

  lemma RecordKeepsTickets(p: Params, s: Shared, t: Tickets, b: bool)
    requires Proper(p) && TicketRates(p, s, t)
    ensures TicketRates(p, Step(p, s, Record(b)), TicketsAfter(t, Recording).value)
  {
    var u := Step(p, s, Record(b));
    assert u.history[..|u.history|] == u.history;
    assert forall n :: 0 <= n <= |s.history| ==> u.history[..n] == s.history[..n];
  }

  lemma InstallKeepsTickets(p: Params, s: Shared, t: Tickets, i: nat)
    requires Proper(p) && TicketRates(p, s, t) && i < |t.waiting|
    ensures TicketRates(p, Step(p, s, Install(i)), TicketsAfter(t, Installing(i)).value)
  {
  }

  lemma Plays(p: Params, actions: seq<Action>, s: Shared, t: Tickets, a: Action, e: Event)
    requires Proper(p) && Execute(p, actions) == Some(s) && TicketRates(p, s, t) && TicketsAfter(t, e).Some?
    requires match e case Recording => a.Record? case Installing(i) => a == Install(i)
    ensures Enabled(s, a) && Execute(p, actions + [a]) == Some(Step(p, s, a))
    ensures TicketRates(p, Step(p, s, a), TicketsAfter(t, e).value)
  {
    ExecuteOneMore(p, actions, a, s);
    match e {
      case Recording => RecordKeepsTickets(p, s, t, a.isError);
      case Installing(i) => InstallKeepsTickets(p, s, t, i);
    }
  }

  function ActionOf(e: Event, results: seq<bool>): Action
    requires e.Recording? ==> results != []
  {
    match e case Recording => Record(results[|results| - 1]) case Installing(i) => Install(i)
  }

  function ResultsBefore(e: Event, results: seq<bool>): seq<bool>
    requires e.Recording? ==> results != []
  {
    if e.Recording? then results[..|results| - 1] else results
  }

  lemma PlayLast(events: seq<Event>, results: seq<bool>)
    requires events != [] && |results| == Recordings(events)
    ensures var rest, e := events[..|events| - 1], events[|events| - 1];
            && (e.Recording? ==> results != [])
            && |ResultsBefore(e, results)| == Recordings(rest)
            && Play(events, results) == Play(rest, ResultsBefore(e, results)) + [ActionOf(e, results)]
  {
  }

  lemma NothingPlayed(p: Params)
    requires Proper(p)
    ensures TicketRates(p, Shared([], [], p.maxRPS), Tickets(0, [], 0))
  {
    assert ErrorRate(0, 0) == 0.0;
  }

  lemma HistoryAfter(p: Params, s: Shared, e: Event, results: seq<bool>)
    requires Proper(p) && (e.Recording? ==> results != []) && Enabled(s, ActionOf(e, results))
    requires s.history == ResultsBefore(e, results)
    ensures Step(p, s, ActionOf(e, results)).history == results
  {
  }

  /** Under every result, each rate is the one due after the recording its ticket names. */
  lemma {:induction false} PlayFollows(p: Params, events: seq<Event>, results: seq<bool>, t: Tickets)
    returns (s: Shared)
    requires Proper(p) && Issue(events) == Some(t) && |results| == Recordings(events)
    ensures Execute(p, Play(events, results)) == Some(s)
    ensures s.history == results && TicketRates(p, s, t)
  {
    if events == [] {
      s := Shared([], [], p.maxRPS);
      NothingPlayed(p);
    } else {
      PlayLast(events, results);
      var rest, e := events[..|events| - 1], events[|events| - 1];
      var before, a := ResultsBefore(e, results), ActionOf(e, results);
      var u := Issue(rest).value;
      var v := PlayFollows(p, rest, before, u);
      Plays(p, Play(rest, before), v, u, a, e);
      HistoryAfter(p, v, e, results);
      s := Step(p, v, a);
    }
  }

  /** Every run is a schedule with results. */
  lemma {:induction false} RunsAreSchedules(p: Params, actions: seq<Action>, s: Shared)
    returns (events: seq<Event>, results: seq<bool>, t: Tickets)
    requires Proper(p) && Execute(p, actions) == Some(s)
    ensures Issue(events) == Some(t) && |results| == Recordings(events) && actions == Play(events, results)
    ensures |t.waiting| == |s.pending|
  {
    if actions == [] {
      events, results, t := [], [], Tickets(0, [], 0);
    } else {
      var rest, a := actions[..|actions| - 1], actions[|actions| - 1];
      var before, r, u := RunsAreSchedules(p, rest, Execute(p, rest).value);
      var e := if a.Record? then Recording else Installing(a.i);
      events := before + [e];
      assert events[..|events| - 1] == before;
      results := if a.Record? then r + [a.isError] else r;
      assert a.Record? ==> results[..|results| - 1] == r;
      t := TicketsAfter(u, e).value;
      assert actions == rest + [a];
    }
  }

  lemma ExecuteOneMore(p: Params, actions: seq<Action>, a: Action, s: Shared)
    requires Proper(p) && Execute(p, actions) == Some(s) && Enabled(s, a)
    ensures Execute(p, actions + [a]) == Some(Step(p, s, a))
  {
    assert (actions + [a])[..|actions|] == actions;
  }

  /** With these results the schedule leaves the rate due after all of them. */
  ghost predicate CurrentFor(p: Params, events: seq<Event>, results: seq<bool>)
    requires Proper(p) && |results| == Recordings(events)
  {
    match Execute(p, Play(events, results))
    case None => true
    case Some(s) => s.installed == RateAfter(p, s.history)
  }

  ghost predicate AlwaysCurrent(events: seq<Event>) {
    forall p, results :: Proper(p) && |results| == Recordings(events) ==> CurrentFor(p, events, results)
  }

  lemma NoErrorsFullRate(p: Params, history: seq<bool>)
    requires Proper(p) && Errors(history) == 0
    ensures RateAfter(p, history) == p.maxRPS
  {
    var n := |history|;
    assert ErrorRate(n, 0) == 0.0;
  }

  /** All results but the last are successes. */
  function LastFails(n: nat): (results: seq<bool>)
    requires n > 0
    ensures |results| == n
  {
    Successes(n - 1) + [true]
  }

  lemma LastFailsRates(p: Params, n: nat, k: nat)
    requires p == Params(1.0, 3.0, 1.0) && k < n
    ensures RateAfter(p, LastFails(n)[..k]) == 3.0 && RateAfter(p, LastFails(n)) < 3.0
  {
    var results := LastFails(n);
    assert results[..n - 1] == Successes(n - 1);
    SuccessesHaveNoErrors(n - 1);
    NoErrorsBefore(results, k, n - 1);
    NoErrorsFullRate(p, results[..k]);
    OneErrorSlows(p, results);
  }

  lemma OneErrorSlows(p: Params, history: seq<bool>)
    requires p == Params(1.0, 3.0, 1.0) && Errors(history) == 1
    ensures RateAfter(p, history) < 3.0
  {
    SlowerThanFull(p, ErrorRate(|history|, 1));
    ReciprocalPositive(|history| as real);
  }

  lemma SlowerThanFull(p: Params, x: real)
    requires p == Params(1.0, 3.0, 1.0)
    ensures x > 0.0 ==> RateAt(p, x) < 3.0
  {
    assert x / 1.0 == x;
  }

  lemma ReciprocalPositive(n: real)
    requires n > 0.0
    ensures 1.0 / n > 0.0
  {
    assert 1.0 / n * n == 1.0;
  }

  lemma SuccessesHaveNoErrors(k: nat)
    ensures Errors(Successes(k)) == 0
  {
    ErrorsThenSuccesses([], k);
    assert [] + Successes(k) == Successes(k);
  }

  lemma {:induction false} NoErrorsBefore(history: seq<bool>, k: nat, n: nat)
    requires k <= n <= |history| && Errors(history[..n]) == 0
    ensures Errors(history[..k]) == 0
  {
    if k == n {
    } else {
      assert history[..n][..n - 1] == history[..n - 1];
      NoErrorsBefore(history, k, n - 1);
    }
  }

  /**
   A schedule installs the current rate whatever the results and the parameters exactly when its
   last installation belongs to its last recording.
   */
  lemma CurrentExactly(events: seq<Event>, t: Tickets)
    requires Issue(events) == Some(t)
    ensures AlwaysCurrent(events) <==> t.installed == t.recorded
  {
    if t.installed == t.recorded {
      forall p, results | Proper(p) && |results| == Recordings(events) ensures CurrentFor(p, events, results) {
        var s := PlayFollows(p, events, results, t);
        assert s.history[..|s.history|] == s.history;
      }
    } else {
      StaleWhenLastFails(events, t);
    }
  }

  /** Otherwise one failure at the end goes unnoticed. */
  lemma StaleWhenLastFails(events: seq<Event>, t: Tickets)
    requires Issue(events) == Some(t) && t.installed != t.recorded
    ensures !AlwaysCurrent(events)
  {
    var p := Params(1.0, 3.0, 1.0);
    TicketsCount(events, t);
    LastFailsRates(p, t.recorded, t.installed);
    var s := PlayFollows(p, events, LastFails(t.recorded), t);
    assert !CurrentFor(p, events, LastFails(t.recorded));
  }

  predicate Numbered(t: Tickets) {
    t.installed <= t.recorded && forall i :: 0 <= i < |t.waiting| ==> t.waiting[i] <= t.recorded
  }

  lemma NumbersGrow(t: Tickets, e: Event)
    requires Numbered(t) && TicketsAfter(t, e).Some?
    ensures Numbered(TicketsAfter(t, e).value)
    ensures TicketsAfter(t, e).value.recorded == t.recorded + if e.Recording? then 1 else 0
  {
  }

  lemma {:induction false} TicketsCount(events: seq<Event>, t: Tickets)
    requires Issue(events) == Some(t)
    ensures t.recorded == Recordings(events) && Numbered(t)
  {
    if events == [] {
    } else {
      var u := Issue(events[..|events| - 1]).value;
      TicketsCount(events[..|events| - 1], u);
      NumbersGrow(u, events[|events| - 1]);
    }
  }

  lemma IssueOneMore(events: seq<Event>, t: Tickets, e: Event)
    requires Issue(events) == Some(t)
    ensures Issue(events + [e]) == TicketsAfter(t, e)
  {
    assert (events + [e])[..|events|] == events;
  }

  /** A finished schedule that does: two recordings whose installations swap. */
  lemma StaleRateStays() returns (events: seq<Event>, t: Tickets)
    ensures Issue(events) == Some(t) && t.waiting == [] && !AlwaysCurrent(events)
  {
    var e1 := [] + [Recording];
    var e2 := e1 + [Recording];
    var e3 := e2 + [Installing(1)];
    events := e3 + [Installing(0)];
    assert [] + [1] == [1] && [1] + [2] == [1, 2];
    assert [1, 2][..1] + [1, 2][2..] == [1] && [1][..0] + [1][1..] == [];
    IssueOneMore([], Tickets(0, [], 0), Recording);
    IssueOneMore(e1, Tickets(1, [1], 0), Recording);
    IssueOneMore(e2, Tickets(2, [1, 2], 0), Installing(1));
    IssueOneMore(e3, Tickets(2, [1], 2), Installing(0));
    t := Tickets(2, [], 1);
    CurrentExactly(events, t);
  }

  // --- the object ---

  class AdaptiveLimiter {
    const params: Params
    var totalScans: nat
    var errorScans: nat
    var installed: real
    ghost var history: seq<bool>

    /** The installed rate is the one due after exactly the results recorded so far. */
    ghost predicate Valid()
      reads this
    {
      && Proper(params)
      && totalScans == |history|
      && errorScans == Errors(history)
      && installed == RateAfter(params, history)
    }

    constructor (maxRPS: real, minRPS: real, threshold: real)
      ensures Valid() && params == New(maxRPS, minRPS, threshold) && history == []
    {
      var p := New(maxRPS, minRPS, threshold);
      params := p;
      totalScans, errorScans, installed := 0, 0, p.maxRPS;
      history := [];
    }

    /** One uninterrupted call: the counters, then the rate that follows from them. */
    method RecordResult(isError: bool)
      requires Valid()
      modifies this
      ensures Valid() && history == old(history) + [isError]
      ensures isError ==> installed <= old(installed)
      ensures !isError ==> installed >= old(installed)
    {
      RateOverHistories(params, history);
      assert (history + [isError])[..|history|] == history;
      history := history + [isError];
      totalScans := totalScans + 1;
      if isError {
        errorScans := errorScans + 1;
      }
      installed := EffectiveRPSLocked();
    }

    /** The source's effectiveRPSLocked, over the counters. */
    method EffectiveRPSLocked() returns (r: real)
      requires Proper(params)
      ensures r == EffectiveRPS(params, totalScans, errorScans)
    {
      var errRate := if totalScans == 0 then 0.0 else errorScans as real / totalScans as real;
      if errRate >= params.threshold {
        return params.minRPS;
      }
      if errRate <= 0.0 {
        return params.maxRPS;
      }
      var ratio := errRate / params.threshold;
      r := params.maxRPS - ratio * (params.maxRPS - params.minRPS);
    }
  }
}
