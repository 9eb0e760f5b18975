/**
 Scan dispatch for one workload: the loop that starts one goroutine per image/scanner pair
 under a semaphore and a wait group, and the goroutines themselves, as atomic steps that
 interleave arbitrarily.
 */
module Dispatch {
  import opened Wrappers
  import opened Counting

  /** Where a goroutine is; its deferred calls run in the order gauge, semaphore, wait group. */
  datatype Stage = Pending | Running | Counted | Settled | Lowered | Released | Finished

  /** `failed` is meaningful once the scan has been counted. */
  datatype Worker = Worker(stage: Stage, failed: bool)

  datatype Result = Success | FirstError(pair: nat) | Backpressure

  /** The dispatching loop; n is the pair being dispatched. */
  datatype Pc =
    | Add(n: nat)
    | Acquire(n: nat)
    | Limit(n: nat)
    | Launch(n: nat)
    | AbortDone(n: nat)
    | AbortRelease(n: nat)
    | Waiting
    | Returned(result: Result)

  /** `recorded` lists the pairs in the order their errors reached setError; `err` is the shared cell. */
  datatype Workload = Workload(pc: Pc, workers: seq<Worker>, semaphore: nat, waitGroup: nat, gauge: int,
                               scans: nat, errors: nat, err: Option<nat>, recorded: seq<nat>)

  datatype Action =
    | Dispatch
    | LimiterFails
    | Scanned(i: nat, failed: bool)
    | Advance(i: nat)

  function Initial(pairs: nat): Workload {
    Workload(Add(0), seq(pairs, _ => Worker(Pending, false)), 0, 0, 0, 0, 0, None, [])
  }

  ghost predicate Enabled(cap: nat, w: Workload, a: Action) {
    match a
    case Dispatch =>
      (match w.pc
       case Acquire(_) => w.semaphore < cap
       case AbortDone(_) => w.waitGroup > 0
       case AbortRelease(_) => w.semaphore > 0
       case Waiting => w.waitGroup == 0
       case Launch(n) => n < |w.workers|
       case Returned(_) => false
       case _ => true)
    case LimiterFails => w.pc.Limit?
    case Scanned(i, _) => i < |w.workers| && w.workers[i].stage == Running
    case Advance(i) =>
      i < |w.workers| &&
      match w.workers[i].stage
      case Counted => true
      case Settled => true
      case Lowered => w.semaphore > 0
      case Released => w.waitGroup > 0
      case _ => false
  }

  /** The loop's own steps. */
  ghost function DispatchStep(cap: nat, w: Workload): Workload
    requires Enabled(cap, w, Dispatch)
  {
    match w.pc
    case Add(n) =>
      if n < |w.workers| then w.(pc := Acquire(n), waitGroup := w.waitGroup + 1) else w.(pc := Waiting)
    case Acquire(n) => w.(pc := Limit(n), semaphore := w.semaphore + 1)
    case Limit(n) => w.(pc := Launch(n), gauge := w.gauge + 1)
    case Launch(n) => w.(pc := Add(n + 1), workers := w.workers[n := Worker(Running, false)])
    case AbortDone(n) => w.(pc := AbortRelease(n), waitGroup := w.waitGroup - 1)
    case AbortRelease(_) => w.(pc := Returned(Backpressure), semaphore := w.semaphore - 1)
    case Waiting => w.(pc := Returned(if w.err.Some? then FirstError(w.err.value) else Success))
  }

  /** workloadExecutionState.setError: the first error stays. */
  function SetError(err: Option<nat>, e: nat): Option<nat> {
    if err == None then Some(e) else err
  }

  ghost function Step(cap: nat, w: Workload, a: Action): Workload
    requires Enabled(cap, w, a)
  {
    match a
    case Dispatch => DispatchStep(cap, w)
    case LimiterFails => w.(pc := AbortDone(w.pc.n))
    case Scanned(i, failed) =>
      var v := w.(workers := w.workers[i := Worker(Counted, failed)]);
      if failed then v.(errors := w.errors + 1) else v.(scans := w.scans + 1)
    case Advance(i) =>
      var k := w.workers[i];
      match k.stage
      case Counted =>
        var v := w.(workers := w.workers[i := k.(stage := Settled)]);
        if k.failed then v.(err := SetError(w.err, i), recorded := w.recorded + [i]) else v
      case Settled => w.(workers := w.workers[i := k.(stage := Lowered)], gauge := w.gauge - 1)
      case Lowered => w.(workers := w.workers[i := k.(stage := Released)], semaphore := w.semaphore - 1)
      case Released => w.(workers := w.workers[i := k.(stage := Finished)], waitGroup := w.waitGroup - 1)
  }

  // --- what each counter stands for ---

  predicate InFlight(k: Worker) { k.stage == Running || k.stage == Counted || k.stage == Settled }

  predicate HoldsSemaphore(k: Worker) { InFlight(k) || k.stage == Lowered }

  predicate HoldsWaitGroup(k: Worker) { HoldsSemaphore(k) || k.stage == Released }

  predicate CountedAs(k: Worker, failed: bool) {
    k.stage != Pending && k.stage != Running && k.failed == failed
  }

  predicate ErrorSettled(k: Worker) { CountedAs(k, true) && k.stage != Counted }

  function B(b: bool): nat { if b then 1 else 0 }

  predicate LoopHoldsGauge(pc: Pc) { pc.Launch? }

  predicate LoopHoldsSemaphore(pc: Pc) { pc.Limit? || pc.Launch? || pc.AbortDone? || pc.AbortRelease? }

  predicate LoopHoldsWaitGroup(pc: Pc) { pc.Acquire? || pc.Limit? || pc.Launch? || pc.AbortDone? }

  predicate Aborting(pc: Pc) { pc.AbortDone? || pc.AbortRelease? || pc == Returned(Backpressure) }

  /** Pairs already handed to a goroutine. */
  predicate Started(w: Workload, i: nat)
    requires i < |w.workers|
  {
    match w.pc
    case Waiting => true
    case Returned(Backpressure) => w.workers[i].stage != Pending
    case Returned(_) => true
    case _ => i < w.pc.n
  }

  ghost predicate CountersOk(w: Workload) {
    && w.gauge == Count(w.workers, InFlight) + B(LoopHoldsGauge(w.pc))
    && w.semaphore == Count(w.workers, HoldsSemaphore) + B(LoopHoldsSemaphore(w.pc))
    && w.waitGroup == Count(w.workers, HoldsWaitGroup) + B(LoopHoldsWaitGroup(w.pc))
    && w.scans == Count(w.workers, (k: Worker) => CountedAs(k, false))
    && w.errors == Count(w.workers, (k: Worker) => CountedAs(k, true))
  }

  ghost predicate ErrorsOk(w: Workload) {
    && |w.recorded| == Count(w.workers, ErrorSettled)
    && (forall i :: i in w.recorded ==> i < |w.workers| && ErrorSettled(w.workers[i]))
    && w.err == (if w.recorded == [] then None else Some(w.recorded[0]))
  }

  ghost predicate LoopOk(cap: nat, w: Workload) {
    && w.semaphore <= cap
    && (Aborting(w.pc) ==> Count(w.workers, HoldsSemaphore) < cap)
    && (match w.pc
        case Returned(_) => true
        case Waiting => true
        case Add(n) => n <= |w.workers|
        case _ => w.pc.n < |w.workers|)
    && (forall i :: 0 <= i < |w.workers| ==> (w.workers[i].stage != Pending <==> Started(w, i)))
    && (match w.pc
        case Returned(Success) => w.err == None && AllFinished(w)
        case Returned(FirstError(i)) => w.err == Some(i) && AllFinished(w)
        case _ => true)
  }

  ghost predicate AllFinished(w: Workload) {
    forall k :: k in w.workers ==> k.stage == Finished
  }

  ghost predicate Inv(cap: nat, w: Workload) {
    CountersOk(w) && ErrorsOk(w) && LoopOk(cap, w)
  }

  // --- preservation ---

  /** How replacing one worker moves every count. */
  lemma CountsMove(w: Workload, i: nat, k: Worker)
    requires i < |w.workers|
    ensures var u := w.workers[i := k];
            var was := w.workers[i];
            && Count(u, InFlight) == Count(w.workers, InFlight) - B(InFlight(was)) + B(InFlight(k))
            && Count(u, HoldsSemaphore) ==
               Count(w.workers, HoldsSemaphore) - B(HoldsSemaphore(was)) + B(HoldsSemaphore(k))
            && Count(u, HoldsWaitGroup) ==
               Count(w.workers, HoldsWaitGroup) - B(HoldsWaitGroup(was)) + B(HoldsWaitGroup(k))
            && Count(u, (k: Worker) => CountedAs(k, false)) ==
               Count(w.workers, (k: Worker) => CountedAs(k, false)) - B(CountedAs(was, false)) + B(CountedAs(k, false))
            && Count(u, (k: Worker) => CountedAs(k, true)) ==
               Count(w.workers, (k: Worker) => CountedAs(k, true)) - B(CountedAs(was, true)) + B(CountedAs(k, true))
            && Count(u, ErrorSettled) == Count(w.workers, ErrorSettled) - B(ErrorSettled(was)) + B(ErrorSettled(k))
  {
    CountUpdate(w.workers, InFlight, i, k);
    CountUpdate(w.workers, HoldsSemaphore, i, k);
    CountUpdate(w.workers, HoldsWaitGroup, i, k);
    CountUpdate(w.workers, (k: Worker) => CountedAs(k, false), i, k);
    CountUpdate(w.workers, (k: Worker) => CountedAs(k, true), i, k);
    CountUpdate(w.workers, ErrorSettled, i, k);
  }

  lemma DispatchKeepsCounters(cap: nat, w: Workload)
    requires CountersOk(w) && LoopOk(cap, w) && Enabled(cap, w, Dispatch)
    ensures CountersOk(DispatchStep(cap, w))
  {
    if w.pc.Launch? {
      CountsMove(w, w.pc.n, Worker(Running, false));
    }
  }

  lemma DispatchKeepsErrors(cap: nat, w: Workload)
    requires ErrorsOk(w) && LoopOk(cap, w) && Enabled(cap, w, Dispatch)
    ensures ErrorsOk(DispatchStep(cap, w))
  {
    if w.pc.Launch? {
      CountUpdate(w.workers, ErrorSettled, w.pc.n, Worker(Running, false));
    }
  }

  lemma LaunchKeepsLoop(cap: nat, w: Workload)
    requires w.pc.Launch? && LoopOk(cap, w) && Enabled(cap, w, Dispatch)
    ensures LoopOk(cap, DispatchStep(cap, w))
  {
  }

  lemma WaitingKeepsLoop(cap: nat, w: Workload)
    requires w.pc.Waiting? && CountersOk(w) && LoopOk(cap, w) && Enabled(cap, w, Dispatch)
    ensures LoopOk(cap, DispatchStep(cap, w))
  {
    CountBounds(w.workers, HoldsWaitGroup);
  }

  lemma DispatchKeepsLoop(cap: nat, w: Workload)
    requires CountersOk(w) && LoopOk(cap, w) && Enabled(cap, w, Dispatch)
    ensures LoopOk(cap, DispatchStep(cap, w))
  {
    match w.pc {
      case Launch(_) => LaunchKeepsLoop(cap, w);
      case Waiting => WaitingKeepsLoop(cap, w);
      case _ =>
    }
  }

  /** What a goroutine's step does to the shared counters, read off the worker alone. */
  lemma WorkerMovesCounters(cap: nat, w: Workload, a: Action)
    requires Enabled(cap, w, a) && (a.Scanned? || a.Advance?)
    ensures var v, was, now := Step(cap, w, a), w.workers[a.i], Step(cap, w, a).workers[a.i];
            && v.pc == w.pc && v.workers == w.workers[a.i := now]
            && v.gauge == w.gauge - B(InFlight(was)) + B(InFlight(now))
            && v.semaphore == w.semaphore - B(HoldsSemaphore(was)) + B(HoldsSemaphore(now))
            && v.waitGroup == w.waitGroup - B(HoldsWaitGroup(was)) + B(HoldsWaitGroup(now))
            && v.scans == w.scans - B(CountedAs(was, false)) + B(CountedAs(now, false))
            && v.errors == w.errors - B(CountedAs(was, true)) + B(CountedAs(now, true))
            && (HoldsSemaphore(now) ==> HoldsSemaphore(was))
            && was.stage != Pending && was.stage != Finished && now.stage != Pending
  {
  }

  lemma WorkerKeepsCounters(cap: nat, w: Workload, a: Action)
    requires CountersOk(w) && Enabled(cap, w, a) && (a.Scanned? || a.Advance?)
    ensures CountersOk(Step(cap, w, a))
  {
    var v := Step(cap, w, a);
    WorkerMovesCounters(cap, w, a);
    CountersMove(w, v, a.i, v.workers[a.i]);
  }

  lemma CountersMove(w: Workload, v: Workload, i: nat, now: Worker)
    requires CountersOk(w) && i < |w.workers|
    requires v.pc == w.pc && v.workers == w.workers[i := now]
    requires var was := w.workers[i];
             && v.gauge == w.gauge - B(InFlight(was)) + B(InFlight(now))
             && v.semaphore == w.semaphore - B(HoldsSemaphore(was)) + B(HoldsSemaphore(now))
             && v.waitGroup == w.waitGroup - B(HoldsWaitGroup(was)) + B(HoldsWaitGroup(now))
             && v.scans == w.scans - B(CountedAs(was, false)) + B(CountedAs(now, false))
             && v.errors == w.errors - B(CountedAs(was, true)) + B(CountedAs(now, true))
    ensures CountersOk(v)
  {
    CountsMove(w, i, now);
  }

  lemma WorkerKeepsErrors(cap: nat, w: Workload, a: Action)
    requires ErrorsOk(w) && Enabled(cap, w, a) && (a.Scanned? || a.Advance?)
    ensures ErrorsOk(Step(cap, w, a))
  {
    CountUpdate(w.workers, ErrorSettled, a.i, Step(cap, w, a).workers[a.i]);
  }

  lemma WorkerKeepsLoop(cap: nat, w: Workload, a: Action)
    requires CountersOk(w) && LoopOk(cap, w) && Enabled(cap, w, a) && (a.Scanned? || a.Advance?)
    ensures LoopOk(cap, Step(cap, w, a))
  {
    WorkerMovesCounters(cap, w, a);
    CountUpdate(w.workers, HoldsSemaphore, a.i, Step(cap, w, a).workers[a.i]);
    assert w.workers[a.i] in w.workers;
  }

  lemma StepKeepsInv(cap: nat, w: Workload, a: Action)
    requires Inv(cap, w) && Enabled(cap, w, a)
    ensures Inv(cap, Step(cap, w, a))
    ensures |Step(cap, w, a).workers| == |w.workers|
  {
    match a {
      case Dispatch =>
        DispatchKeepsCounters(cap, w);
        DispatchKeepsErrors(cap, w);
        DispatchKeepsLoop(cap, w);
      case LimiterFails =>
      case _ =>
        WorkerKeepsCounters(cap, w, a);
        WorkerKeepsErrors(cap, w, a);
        WorkerKeepsLoop(cap, w, a);
    }
  }

  lemma InitialInv(cap: nat, pairs: nat)
    ensures Inv(cap, Initial(pairs))
  {
    var w := Initial(pairs);
    CountBounds(w.workers, InFlight);
    CountBounds(w.workers, HoldsSemaphore);
    CountBounds(w.workers, HoldsWaitGroup);
    CountBounds(w.workers, (k: Worker) => CountedAs(k, false));
    CountBounds(w.workers, (k: Worker) => CountedAs(k, true));
    CountBounds(w.workers, ErrorSettled);
  }

  // --- executions ---

  ghost function Execute(cap: nat, w: Workload, actions: seq<Action>): Option<Workload> {
    if actions == [] then Some(w)
    else
      match Execute(cap, w, actions[..|actions| - 1])
      case None => None
      case Some(v) =>
        if Enabled(cap, v, actions[|actions| - 1]) then Some(Step(cap, v, actions[|actions| - 1])) else None
  }

  ghost predicate Reaches(cap: nat, pairs: nat, actions: seq<Action>, w: Workload) {
    Execute(cap, Initial(pairs), actions) == Some(w)
  }

  lemma {:induction false} InvAlways(cap: nat, pairs: nat, actions: seq<Action>, w: Workload)
    requires Reaches(cap, pairs, actions, w)
    ensures Inv(cap, w) && |w.workers| == pairs
  {
    if actions == [] {
      InitialInv(cap, pairs);
    } else {
      var v := Execute(cap, Initial(pairs), actions[..|actions| - 1]).value;
      InvAlways(cap, pairs, actions[..|actions| - 1], v);
      StepKeepsInv(cap, v, actions[|actions| - 1]);
    }
  }

  /**
   In every interleaving: in-flight gauge <= semaphore occupancy <= capacity.  Occupancy is at
   most the wait-group count exactly outside the window between the two releases of an aborting
   loop in which no goroutine is between its own two; there it is one more.
   */
  lemma DispatchSafety(cap: nat, pairs: nat, actions: seq<Action>, w: Workload)
    requires Reaches(cap, pairs, actions, w)
    ensures 0 <= w.gauge <= w.semaphore <= cap
    ensures w.semaphore <= w.waitGroup <==> !InAbortWindow(w)
    ensures InAbortWindow(w) ==> w.semaphore == w.waitGroup + 1
    ensures w.scans + w.errors <= pairs
  {
    InvAlways(cap, pairs, actions, w);
    CountImplies(w.workers, InFlight, HoldsSemaphore);
    CountReleased(w.workers);
    CountBounds(w.workers, HasReleased);
    CountDisjoint(w.workers);
  }

  /** The loop has left the wait group and still holds its slot; no goroutine is the other way round. */
  ghost predicate InAbortWindow(w: Workload) {
    w.pc.AbortRelease? && forall i :: 0 <= i < |w.workers| ==> !HasReleased(w.workers[i])
  }

  predicate HasReleased(k: Worker) { k.stage == Released }

  lemma {:induction false} CountReleased(s: seq<Worker>)
    ensures Count(s, HoldsWaitGroup) == Count(s, HoldsSemaphore) + Count(s, HasReleased)
  {
    if s == [] {
    } else {
      CountReleased(s[..|s| - 1]);
    }
  }

  lemma {:induction false} CountDisjoint(s: seq<Worker>)
    ensures Count(s, (k: Worker) => CountedAs(k, false)) + Count(s, (k: Worker) => CountedAs(k, true))
         == Count(s, (k: Worker) => k.stage != Pending && k.stage != Running) <= |s|
  {
    CountBounds(s, (k: Worker) => k.stage != Pending && k.stage != Running);
    if s == [] {
    } else {
      CountDisjoint(s[..|s| - 1]);
    }
  }

  lemma FinishedReleasesAll(w: Workload)
    requires CountersOk(w) && w.pc.Returned? && Drained(w)
    ensures w.gauge == w.semaphore == w.waitGroup == 0
  {
    CountBounds(w.workers, InFlight);
    CountBounds(w.workers, HoldsSemaphore);
    CountBounds(w.workers, HoldsWaitGroup);
  }

  lemma FinishedAccountsForAll(w: Workload)
    requires CountersOk(w) && AllFinished(w)
    ensures w.scans + w.errors == |w.workers|
  {
    CountDisjoint(w.workers);
    CountBounds(w.workers, (k: Worker) => k.stage != Pending && k.stage != Running);
  }

  lemma FinishedRecordsAll(w: Workload)
    requires CountersOk(w) && ErrorsOk(w) && AllFinished(w)
    ensures w.errors == |w.recorded|
  {
    CountImplies(w.workers, (k: Worker) => CountedAs(k, true), ErrorSettled);
    CountImplies(w.workers, ErrorSettled, (k: Worker) => CountedAs(k, true));
  }

  // --- what the actions say about the outcome ---

  /** Scans that ended so. */
  function ScansEnding(actions: seq<Action>, failed: bool): nat {
    if actions == [] then 0
    else
      var last := actions[|actions| - 1];
      ScansEnding(actions[..|actions| - 1], failed) + B(last.Scanned? && last.failed == failed)
  }

  /** Scans of pair i. */
  function ScansOf(actions: seq<Action>, i: nat): nat {
    if actions == [] then 0
    else
      var last := actions[|actions| - 1];
      ScansOf(actions[..|actions| - 1], i) + B(last.Scanned? && last.i == i)
  }

  /** The latest step of pair i's goroutine. */
  function LatestOf(actions: seq<Action>, i: nat): Option<Action> {
    if actions == [] then None
    else
      var last := actions[|actions| - 1];
      if (last.Scanned? || last.Advance?) && last.i == i then Some(last) else LatestOf(actions[..|actions| - 1], i)
  }

  /** The pairs whose goroutines went on after a failed scan, in that order. */
  function FailureReports(actions: seq<Action>): seq<nat> {
    if actions == [] then []
    else
      var rest, last := actions[..|actions| - 1], actions[|actions| - 1];
      FailureReports(rest) +
      if last.Advance? && LatestOf(rest, last.i) == Some(Scanned(last.i, true)) then [last.i] else []
  }

  ghost predicate CountsRead(actions: seq<Action>, w: Workload) {
    && w.errors == ScansEnding(actions, true) && w.scans == ScansEnding(actions, false)
    && (Aborting(w.pc) <==> LimiterFails in actions)
  }

  ghost predicate ReportsRead(actions: seq<Action>, w: Workload) {
    && w.recorded == FailureReports(actions)
    && forall i, failed :: 0 <= i < |w.workers| ==>
         (LatestOf(actions, i) == Some(Scanned(i, failed)) <==> w.workers[i] == Worker(Counted, failed))
  }

  ghost predicate ScansRead(actions: seq<Action>, workers: seq<Worker>) {
    forall i :: 0 <= i < |workers| ==>
      ScansOf(actions, i) == B(workers[i].stage != Pending && workers[i].stage != Running)
  }

  lemma CountsReadStep(cap: nat, rest: seq<Action>, a: Action, v: Workload)
    requires Enabled(cap, v, a) && CountsRead(rest, v)
    ensures CountsRead(rest + [a], Step(cap, v, a))
  {
    assert (rest + [a])[..|rest|] == rest;
  }

  lemma ReportsReadStep(cap: nat, rest: seq<Action>, a: Action, v: Workload)
    requires Enabled(cap, v, a) && LoopOk(cap, v) && ReportsRead(rest, v)
    ensures ReportsRead(rest + [a], Step(cap, v, a))
  {
    assert (rest + [a])[..|rest|] == rest;
  }

  /** Which worker a step concerns, and what becomes of it. */
  lemma ScansReadStep(cap: nat, rest: seq<Action>, a: Action, v: Workload)
    requires Enabled(cap, v, a) && LoopOk(cap, v) && ScansRead(rest, v.workers)
    ensures ScansRead(rest + [a], Step(cap, v, a).workers)
  {
    assert (rest + [a])[..|rest|] == rest;
  }

  /** In every run the counters count the scans that ended each way, and errors are recorded as they are reported. */
  lemma {:induction false} OutcomesCounted(cap: nat, pairs: nat, actions: seq<Action>, w: Workload)
    requires Reaches(cap, pairs, actions, w)
    ensures CountsRead(actions, w) && ReportsRead(actions, w) && ScansRead(actions, w.workers)
  {
    if actions == [] {
    } else {
      var rest, a := actions[..|actions| - 1], actions[|actions| - 1];
      var v := Execute(cap, Initial(pairs), rest).value;
      OutcomesCounted(cap, pairs, rest, v);
      InvAlways(cap, pairs, rest, v);
      CountsReadStep(cap, rest, a, v);
      ReportsReadStep(cap, rest, a, v);
      ScansReadStep(cap, rest, a, v);
      assert actions == rest + [a];
    }
  }

  lemma {:induction false} NoneEnding(actions: seq<Action>, failed: bool)
    ensures ScansEnding(actions, failed) == 0 <==> forall i :: Scanned(i, failed) !in actions
  {
    if actions == [] {
    } else {
      var rest, last := actions[..|actions| - 1], actions[|actions| - 1];
      assert actions == rest + [last];
      NoneEnding(rest, failed);
      assert last.Scanned? && last.failed == failed ==> Scanned(last.i, failed) in actions;
    }
  }

  lemma {:induction false} ReportedFailed(actions: seq<Action>, n: nat)
    requires n in FailureReports(actions)
    ensures Scanned(n, true) in actions
  {
    if actions == [] {
    } else {
      var rest, last := actions[..|actions| - 1], actions[|actions| - 1];
      if n in FailureReports(rest) {
        ReportedFailed(rest, n);
      } else {
        LatestIsThere(rest, n);
      }
    }
  }

  lemma {:induction false} LatestIsThere(actions: seq<Action>, i: nat)
    ensures LatestOf(actions, i).Some? ==> LatestOf(actions, i).value in actions
  {
    if actions == [] {
    } else {
      LatestIsThere(actions[..|actions| - 1], i);
    }
  }

  lemma ReturnAccounts(cap: nat, pairs: nat, actions: seq<Action>, w: Workload)
    requires Reaches(cap, pairs, actions, w)
    requires w.pc.Returned? && w.pc.result != Backpressure
    ensures w.gauge == w.semaphore == w.waitGroup == 0
    ensures |w.workers| == pairs && AllFinished(w) && w.scans + w.errors == pairs
    ensures w.pc.result == if w.recorded == [] then Success else FirstError(w.recorded[0])
    ensures w.errors == |w.recorded|
    ensures w.recorded != [] ==> w.recorded[0] < pairs && w.workers[w.recorded[0]].failed
  {
    InvAlways(cap, pairs, actions, w);
    FinishedReleasesAll(w);
    FinishedAccountsForAll(w);
    FinishedRecordsAll(w);
    assert w.recorded != [] ==> w.recorded[0] in w.recorded;
  }

  /**
   On normal return every pair was scanned exactly once and its outcome counted, every gauge is
   back to zero, and the result is the first failure reported, or success if no scan failed.
   */
  lemma NormalReturn(cap: nat, pairs: nat, actions: seq<Action>, w: Workload)
    requires Reaches(cap, pairs, actions, w)
    requires w.pc.Returned? && w.pc.result != Backpressure
    ensures w.gauge == w.semaphore == w.waitGroup == 0
    ensures |w.workers| == pairs && AllFinished(w) && w.scans + w.errors == pairs
    ensures forall i :: 0 <= i < pairs ==> ScansOf(actions, i) == 1
    ensures w.scans == ScansEnding(actions, false) && w.errors == ScansEnding(actions, true)
    ensures w.pc.result == Success <==> w.errors == 0
    ensures w.pc.result == Success <==> forall i :: Scanned(i, true) !in actions
    ensures w.pc.result.FirstError? ==> w.pc.result.pair < pairs && w.workers[w.pc.result.pair].failed
    ensures w.pc.result.FirstError? ==>
              && FailureReports(actions) != [] && w.pc.result.pair == FailureReports(actions)[0]
              && Scanned(w.pc.result.pair, true) in actions
  {
    ReturnAccounts(cap, pairs, actions, w);
    OutcomesCounted(cap, pairs, actions, w);
    NoneEnding(actions, true);
    forall i | 0 <= i < pairs ensures ScansOf(actions, i) == 1 {
      assert w.workers[i] in w.workers;
    }
    if w.recorded != [] {
      ReportedFailed(actions, w.recorded[0]);
    }
  }

  /** The loop gives up exactly when the limiter failed. */
  lemma BackpressureExactly(cap: nat, pairs: nat, actions: seq<Action>, w: Workload)
    requires Reaches(cap, pairs, actions, w) && w.pc.Returned?
    ensures w.pc.result == Backpressure <==> LimiterFails in actions
  {
    OutcomesCounted(cap, pairs, actions, w);
  }

  /** No goroutine is part-way. */
  ghost predicate Drained(w: Workload) {
    forall k :: k in w.workers ==> k.stage == Pending || k.stage == Finished
  }

  /** Even after a backpressure error, once the goroutines it left behind finish the counters are zero. */
  lemma AbortDrains(cap: nat, pairs: nat, actions: seq<Action>, w: Workload)
    requires Reaches(cap, pairs, actions, w)
    requires w.pc.Returned? && Drained(w)
    ensures w.gauge == w.semaphore == w.waitGroup == 0
  {
    InvAlways(cap, pairs, actions, w);
    FinishedReleasesAll(w);
  }

  /** The abort window is real: occupancy one above the wait group. */
  lemma AbortWindow() returns (actions: seq<Action>, w: Workload)
    ensures Reaches(1, 1, actions, w)
    ensures w.semaphore == 1 && w.waitGroup == 0
  {
    var w0 := Initial(1);
    assert w0.workers == [Worker(Pending, false)];
    var w1, w2 := Step(1, w0, Dispatch), Step(1, Step(1, w0, Dispatch), Dispatch);
    ExecuteOneMore(1, w0, [], w0, Dispatch);
    ExecuteOneMore(1, w0, [] + [Dispatch], w1, Dispatch);
    var a2 := [] + [Dispatch] + [Dispatch];
    var w3 := Step(1, w2, LimiterFails);
    ExecuteOneMore(1, w0, a2, w2, LimiterFails);
    w := Step(1, w3, Dispatch);
    ExecuteOneMore(1, w0, a2 + [LimiterFails], w3, Dispatch);
    actions := a2 + [LimiterFails] + [Dispatch];
  }

  lemma ExecuteOneMore(cap: nat, w: Workload, actions: seq<Action>, v: Workload, a: Action)
    requires Execute(cap, w, actions) == Some(v) && Enabled(cap, v, a)
    ensures Execute(cap, w, actions + [a]) == Some(Step(cap, v, a))
  {
    assert (actions + [a])[..|actions|] == actions;
  }

  lemma {:induction false} ExecuteConcat(cap: nat, w: Workload, a: seq<Action>, v: Workload, b: seq<Action>)
    requires Execute(cap, w, a) == Some(v)
    ensures Execute(cap, w, a + b) == Execute(cap, v, b)
  {
    if b == [] {
      assert a + b == a;
    } else {
      assert (a + b)[..|a + b| - 1] == a + b[..|b| - 1];
      ExecuteConcat(cap, w, a, v, b[..|b| - 1]);
    }
  }

  /** The loop's steps for one pair when nothing blocks. */
  const FOUR_STEPS: seq<Action> := [Dispatch] + [Dispatch] + [Dispatch] + [Dispatch]

  const ABORT_STEPS: seq<Action> := [Dispatch] + [Dispatch] + [LimiterFails] + [Dispatch] + [Dispatch]

  predicate CanStart(cap: nat, w: Workload) {
    w.pc.Add? && w.pc.n < |w.workers| && w.semaphore < cap
  }

  function StartsOne(cap: nat, w: Workload): Workload
    requires CanStart(cap, w)
  {
    w.(pc := Add(w.pc.n + 1), workers := w.workers[w.pc.n := Worker(Running, false)],
       semaphore := w.semaphore + 1, waitGroup := w.waitGroup + 1, gauge := w.gauge + 1)
  }

  lemma StartsOneResult(cap: nat, w: Workload)
    requires CanStart(cap, w)
    ensures Execute(cap, w, FOUR_STEPS) == Some(StartsOne(cap, w))
  {
    var w1 := Step(cap, w, Dispatch);
    var w2 := Step(cap, w1, Dispatch);
    var w3 := Step(cap, w2, Dispatch);
    ExecuteOneMore(cap, w, [], w, Dispatch);
    assert [] + [Dispatch] == [Dispatch];
    ExecuteOneMore(cap, w, [Dispatch], w1, Dispatch);
    ExecuteOneMore(cap, w, [Dispatch] + [Dispatch], w2, Dispatch);
    ExecuteOneMore(cap, w, [Dispatch] + [Dispatch] + [Dispatch], w3, Dispatch);
  }

  lemma AbortsAfter(cap: nat, w: Workload)
    requires CanStart(cap, w)
    ensures Execute(cap, w, ABORT_STEPS) == Some(w.(pc := Returned(Backpressure)))
  {
    var w1 := Step(cap, w, Dispatch);
    var w2 := Step(cap, w1, Dispatch);
    var w3 := Step(cap, w2, LimiterFails);
    var w4 := Step(cap, w3, Dispatch);
    ExecuteOneMore(cap, w, [], w, Dispatch);
    assert [] + [Dispatch] == [Dispatch];
    ExecuteOneMore(cap, w, [Dispatch], w1, Dispatch);
    ExecuteOneMore(cap, w, [Dispatch] + [Dispatch], w2, LimiterFails);
    ExecuteOneMore(cap, w, [Dispatch] + [Dispatch] + [LimiterFails], w3, Dispatch);
    ExecuteOneMore(cap, w, [Dispatch] + [Dispatch] + [LimiterFails] + [Dispatch], w4, Dispatch);
  }

  /** n scans started from a fresh workload. */
  lemma {:induction false} StartsMany(cap: nat, pairs: nat, n: nat) returns (steps: seq<Action>, w: Workload)
    requires n <= pairs && n <= cap
    ensures Execute(cap, Initial(pairs), steps) == Some(w)
    ensures w.pc == Add(n) && w.semaphore == n && w.gauge == n && |w.workers| == pairs
  {
    if n == 0 {
      steps, w := [], Initial(pairs);
    } else {
      var before, v := StartsMany(cap, pairs, n - 1);
      StartsOneResult(cap, v);
      ExecuteConcat(cap, Initial(pairs), before, v, FOUR_STEPS);
      steps, w := before + FOUR_STEPS, StartsOne(cap, v);
    }
  }

  /** A workload of cap pairs has them all in flight. */
  lemma FillsUp(cap: nat) returns (steps: seq<Action>, w: Workload)
    ensures Execute(cap, Initial(cap), steps) == Some(w)
    ensures w.gauge == cap && !w.pc.Returned?
  {
    steps, w := StartsMany(cap, cap, cap);
  }

  /** It gives up at the last pair, with the others still in flight. */
  lemma AbortsFull(cap: nat) returns (steps: seq<Action>, w: Workload)
    requires cap >= 1
    ensures Execute(cap, Initial(cap), steps) == Some(w)
    ensures w.gauge == cap - 1 && w.pc == Returned(Backpressure)
  {
    var before, v := StartsMany(cap, cap, cap - 1);
    AbortsAfter(cap, v);
    ExecuteConcat(cap, Initial(cap), before, v, ABORT_STEPS);
    steps, w := before + ABORT_STEPS, v.(pc := Returned(Backpressure));
  }

  // --- progress ---

  ghost predicate Done(w: Workload) {
    w.pc.Returned? && Drained(w)
  }

  /** With room for one scan, some step is enabled until the loop has returned and every goroutine finished. */
  lemma Progress(cap: nat, w: Workload)
    requires Inv(cap, w) && cap >= 1 && !Done(w)
    ensures exists a: Action :: Enabled(cap, w, a)
  {
    if !Drained(w) {
      WorkerCanMove(cap, w);
    } else {
      LoopCanMove(cap, w);
    }
  }

  lemma LoopCanMove(cap: nat, w: Workload)
    requires Inv(cap, w) && cap >= 1 && Drained(w) && !w.pc.Returned?
    ensures Enabled(cap, w, Dispatch)
  {
    CountBounds(w.workers, HoldsSemaphore);
    CountBounds(w.workers, HoldsWaitGroup);
  }

  lemma WorkerCanMove(cap: nat, w: Workload)
    requires Inv(cap, w) && !Drained(w)
    ensures exists a: Action :: (a.Scanned? || a.Advance?) && Enabled(cap, w, a)
  {
    var i :| 0 <= i < |w.workers| && w.workers[i].stage != Pending && w.workers[i].stage != Finished;
    CountBounds(w.workers, HoldsSemaphore);
    CountBounds(w.workers, HoldsWaitGroup);
    if w.workers[i].stage == Running {
      assert Enabled(cap, w, Scanned(i, false));
    } else {
      assert Enabled(cap, w, Advance(i));
    }
  }

  function StepsLeft(k: Worker): nat {
    match k.stage
    case Pending => 9
    case Running => 5
    case Counted => 4
    case Settled => 3
    case Lowered => 2
    case Released => 1
    case Finished => 0
  }

  function WorkLeft(s: seq<Worker>): nat {
    if s == [] then 0 else WorkLeft(s[..|s| - 1]) + StepsLeft(s[|s| - 1])
  }

  function LoopLeft(pc: Pc): nat {
    match pc
    case Add(_) => 5
    case Acquire(_) => 4
    case Limit(_) => 3
    case Launch(_) => 2
    case AbortDone(_) => 2
    case AbortRelease(_) => 1
    case Waiting => 1
    case Returned(_) => 0
  }

  function Measure(w: Workload): nat {
    WorkLeft(w.workers) + LoopLeft(w.pc)
  }

  lemma {:induction false} WorkLeftUpdate(s: seq<Worker>, i: nat, k: Worker)
    requires i < |s|
    ensures WorkLeft(s[i := k]) == WorkLeft(s) - StepsLeft(s[i]) + StepsLeft(k)
  {
    var n := |s| - 1;
    if i == n {
      assert s[i := k][..n] == s[..n];
    } else {
      assert s[i := k][..n] == s[..n][i := k];
      WorkLeftUpdate(s[..n], i, k);
    }
  }

  lemma WorkerDecreases(cap: nat, w: Workload, a: Action)
    requires Enabled(cap, w, a) && (a.Scanned? || a.Advance?)
    ensures Measure(Step(cap, w, a)) < Measure(w)
  {
    var k := Step(cap, w, a).workers[a.i];
    assert StepsLeft(k) < StepsLeft(w.workers[a.i]);
    WorkLeftUpdate(w.workers, a.i, k);
  }

  /** Every step brings the end nearer. */
  lemma StepDecreases(cap: nat, w: Workload, a: Action)
    requires Inv(cap, w) && Enabled(cap, w, a)
    ensures Measure(Step(cap, w, a)) < Measure(w)
  {
    match a {
      case Dispatch =>
        if w.pc.Launch? {
          WorkLeftUpdate(w.workers, w.pc.n, Worker(Running, false));
        }
      case LimiterFails =>
      case _ => WorkerDecreases(cap, w, a);
    }
  }

  /** So every run is at most as long as the initial measure, and one that cannot go on has finished. */
  lemma {:induction false} RunsEnd(cap: nat, pairs: nat, actions: seq<Action>, w: Workload)
    requires Reaches(cap, pairs, actions, w)
    ensures |actions| + Measure(w) <= Measure(Initial(pairs))
    ensures cap >= 1 && (forall a: Action :: !Enabled(cap, w, a)) ==> Done(w)
  {
    InvAlways(cap, pairs, actions, w);
    if actions == [] {
    } else {
      var rest, a := actions[..|actions| - 1], actions[|actions| - 1];
      var v := Execute(cap, Initial(pairs), rest).value;
      InvAlways(cap, pairs, rest, v);
      RunsEnd(cap, pairs, rest, v);
      StepDecreases(cap, v, a);
    }
    if cap >= 1 && !Done(w) {
      Progress(cap, w);
    }
  }

  // --- the shared error cell ---

  class WorkloadExecutionState {
    var err: Option<nat>

    constructor ()
      ensures err == None
    {
      err := None;
    }

    method Set(e: Option<nat>)
      modifies this
      ensures err == if e == None then old(err) else SetError(old(err), e.value)
    {
      if e == None {
        return;
      }
      if err == None {
        err := e;
      }
    }

    method Get() returns (e: Option<nat>)
      ensures e == err
    {
      return err;
    }
  }
}
