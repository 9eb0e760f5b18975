/**
 A whole reconciliation: namespaces run concurrently under their own semaphore, the workloads
 of one namespace one after another, and each workload dispatches its scans.  A workload that
 gave up on a backpressure error leaves goroutines running behind its successors.
 */
module Reconcile {
  import opened Wrappers
  import opened Counting
  import W = Dispatch

  /** Running(k): the namespace's goroutine is at workload k, or past the last one. */
  datatype Stage = Queued | Running(k: nat) | Left | Done

  datatype Namespace = Namespace(stage: Stage, workloads: seq<W.Workload>)

  /** The loop over namespaces; Draining waits for the namespace goroutines. */
  datatype Pc = Add(n: nat) | Acquire(n: nat) | Draining(cancelled: bool) | Returned(cancelled: bool)

  datatype System = System(pc: Pc, namespaces: seq<Namespace>, semaphore: nat, waitGroup: nat)

  /** N concurrent namespaces, `cap` concurrent scans per workload. */
  datatype Limits = Limits(namespaces: nat, cap: nat)

  datatype Action =
    | Loop
    | Cancel
    | Work(i: nat, k: nat, step: W.Action)
    | NextWorkload(i: nat)
    | Leave(i: nat)
    | Finish(i: nat)

  predicate IsLoopStep(a: W.Action) { a.Dispatch? || a.LimiterFails? }

  ghost predicate Enabled(l: Limits, s: System, a: Action) {
    match a
    case Loop =>
      (match s.pc
       case Add(_) => true
       case Acquire(n) => n < |s.namespaces| && s.semaphore < l.namespaces
       case Draining(_) => s.waitGroup == 0
       case Returned(_) => false)
    case Cancel => s.pc.Acquire? && s.waitGroup > 0
    case Work(i, k, step) =>
      && i < |s.namespaces| && k < |s.namespaces[i].workloads|
      && W.Enabled(l.cap, s.namespaces[i].workloads[k], step)
      && (IsLoopStep(step) ==> s.namespaces[i].stage == Running(k))
    case NextWorkload(i) =>
      && i < |s.namespaces| && s.namespaces[i].stage.Running?
      && s.namespaces[i].stage.k < |s.namespaces[i].workloads|
      && s.namespaces[i].workloads[s.namespaces[i].stage.k].pc.Returned?
    case Leave(i) =>
      i < |s.namespaces| && s.namespaces[i].stage == Running(|s.namespaces[i].workloads|) && s.semaphore > 0
    case Finish(i) => i < |s.namespaces| && s.namespaces[i].stage == Left && s.waitGroup > 0
  }

  function SetStage(s: System, i: nat, stage: Stage): System
    requires i < |s.namespaces|
  {
    s.(namespaces := s.namespaces[i := s.namespaces[i].(stage := stage)])
  }

  ghost function Step(l: Limits, s: System, a: Action): System
    requires Enabled(l, s, a)
  {
    match a
    case Loop =>
      (match s.pc
       case Add(n) =>
         if n < |s.namespaces| then s.(pc := Acquire(n), waitGroup := s.waitGroup + 1) else s.(pc := Draining(false))
       case Acquire(n) => SetStage(s.(pc := Add(n + 1), semaphore := s.semaphore + 1), n, Running(0))
       case Draining(c) => s.(pc := Returned(c)))
    case Cancel => s.(pc := Draining(true), waitGroup := s.waitGroup - 1)
    case Work(i, k, step) =>
      var ns := s.namespaces[i];
      s.(namespaces := s.namespaces[i := ns.(workloads := ns.workloads[k := W.Step(l.cap, ns.workloads[k], step)])])
    case NextWorkload(i) => SetStage(s, i, Running(s.namespaces[i].stage.k + 1))
    case Leave(i) => SetStage(s, i, Left).(semaphore := s.semaphore - 1)
    case Finish(i) => SetStage(s, i, Done).(waitGroup := s.waitGroup - 1)
  }

  /** pairs[i][k]: the image/scanner pairs of workload k of namespace i. */
  function Initial(pairs: seq<seq<nat>>): System {
    System(Add(0), seq(|pairs|, i requires 0 <= i < |pairs| => InitialNamespace(pairs[i])), 0, 0)
  }

  function InitialNamespace(pairs: seq<nat>): Namespace {
    Namespace(Queued, seq(|pairs|, k requires 0 <= k < |pairs| => W.Initial(pairs[k])))
  }

  // --- the invariant ---

  predicate IsRunning(ns: Namespace) { ns.stage.Running? }

  predicate HoldsWaitGroup(ns: Namespace) { ns.stage.Running? || ns.stage.Left? }

  predicate Untouched(w: W.Workload) { w.pc == W.Add(0) }

  predicate Aborted(w: W.Workload) { w.pc == W.Returned(W.Backpressure) }

  ghost predicate NamespaceOk(cap: nat, ns: Namespace) {
    && (forall w :: w in ns.workloads ==> W.Inv(cap, w))
    && match ns.stage
       case Queued => forall w :: w in ns.workloads ==> Untouched(w)
       case Running(k) =>
         && k <= |ns.workloads|
         && (forall j :: 0 <= j < k ==> ns.workloads[j].pc.Returned?)
         && (forall j :: k < j < |ns.workloads| ==> Untouched(ns.workloads[j]))
       case _ => forall w :: w in ns.workloads ==> w.pc.Returned?
  }

  ghost predicate LoopOk(s: System) {
    match s.pc
    case Add(n) => n <= |s.namespaces| && forall i :: 0 <= i < |s.namespaces| ==>
        (s.namespaces[i].stage == Queued <==> i >= n)
    case Acquire(n) => n < |s.namespaces| && forall i :: 0 <= i < |s.namespaces| ==>
        (s.namespaces[i].stage == Queued <==> i >= n)
    case Draining(false) => forall i :: 0 <= i < |s.namespaces| ==> s.namespaces[i].stage != Queued
    case Returned(false) => forall i :: 0 <= i < |s.namespaces| ==> s.namespaces[i].stage == Done
    case Draining(true) => true
    case Returned(true) => forall i :: 0 <= i < |s.namespaces| ==>
        s.namespaces[i].stage == Done || s.namespaces[i].stage == Queued
  }

  ghost predicate Inv(l: Limits, s: System) {
    && s.semaphore == Count(s.namespaces, IsRunning) <= l.namespaces
    && s.waitGroup == Count(s.namespaces, HoldsWaitGroup) + (if s.pc.Acquire? then 1 else 0)
    && (forall ns :: ns in s.namespaces ==> NamespaceOk(l.cap, ns))
    && LoopOk(s)
  }

  lemma InitialInv(l: Limits, pairs: seq<seq<nat>>)
    ensures Inv(l, Initial(pairs))
  {
    var s := Initial(pairs);
    forall ns | ns in s.namespaces ensures NamespaceOk(l.cap, ns) {
      var i :| 0 <= i < |pairs| && ns == InitialNamespace(pairs[i]);
      forall w | w in ns.workloads ensures W.Inv(l.cap, w) && Untouched(w) {
        var k :| 0 <= k < |pairs[i]| && w == W.Initial(pairs[i][k]);
        W.InitialInv(l.cap, pairs[i][k]);
      }
    }
    CountBounds(s.namespaces, IsRunning);
    CountBounds(s.namespaces, HoldsWaitGroup);
  }

  /** A goroutine's step does not move its workload's loop. */
  lemma WorkKeepsNamespace(l: Limits, ns: Namespace, k: nat, step: W.Action)
    requires NamespaceOk(l.cap, ns) && k < |ns.workloads| && W.Enabled(l.cap, ns.workloads[k], step)
    requires IsLoopStep(step) ==> ns.stage == Running(k)
    ensures NamespaceOk(l.cap, ns.(workloads := ns.workloads[k := W.Step(l.cap, ns.workloads[k], step)]))
  {
    var w := ns.workloads[k];
    assert w in ns.workloads;
    W.StepKeepsInv(l.cap, w, step);
    var ws := ns.workloads[k := W.Step(l.cap, w, step)];
    forall v | v in ws ensures W.Inv(l.cap, v) {
      if v != W.Step(l.cap, w, step) {
        assert v in ns.workloads;
      }
    }
    assert !IsLoopStep(step) ==> W.Step(l.cap, w, step).pc == w.pc;
    assert forall j :: 0 <= j < |ws| ==> ws[j] == if j == k then W.Step(l.cap, w, step) else ns.workloads[j];
    assert forall j :: 0 <= j < |ws| ==> ns.workloads[j] in ns.workloads;
  }

  lemma ReplaceNamespace(l: Limits, s: System, i: nat, ns: Namespace)
    requires i < |s.namespaces| && (forall m :: m in s.namespaces ==> NamespaceOk(l.cap, m)) && NamespaceOk(l.cap, ns)
    ensures var all, was := s.namespaces[i := ns], s.namespaces[i];
            && (forall m :: m in all ==> NamespaceOk(l.cap, m))
            && Count(all, IsRunning) == Count(s.namespaces, IsRunning) - W.B(IsRunning(was)) + W.B(IsRunning(ns))
            && Count(all, HoldsWaitGroup) ==
               Count(s.namespaces, HoldsWaitGroup) - W.B(HoldsWaitGroup(was)) + W.B(HoldsWaitGroup(ns))
  {
    CountUpdate(s.namespaces, IsRunning, i, ns);
    CountUpdate(s.namespaces, HoldsWaitGroup, i, ns);
  }

  /** A namespace's own move between stages keeps it consistent. */
  lemma StageKeepsNamespace(cap: nat, ns: Namespace)
    requires NamespaceOk(cap, ns)
    ensures ns.stage == Queued ==> NamespaceOk(cap, ns.(stage := Running(0)))
    ensures ns.stage.Running? && ns.stage.k < |ns.workloads| && ns.workloads[ns.stage.k].pc.Returned? ==>
              NamespaceOk(cap, ns.(stage := Running(ns.stage.k + 1)))
    ensures ns.stage == Running(|ns.workloads|) ==> NamespaceOk(cap, ns.(stage := Left))
    ensures ns.stage == Left ==> NamespaceOk(cap, ns.(stage := Done))
  {
    assert forall j :: 0 <= j < |ns.workloads| ==> ns.workloads[j] in ns.workloads;
  }

  lemma LoopKeepsInv(l: Limits, s: System)
    requires Inv(l, s) && Enabled(l, s, Loop)
    ensures Inv(l, Step(l, s, Loop))
  {
    if s.pc.Acquire? {
      var ns := s.namespaces[s.pc.n];
      assert ns in s.namespaces;
      StageKeepsNamespace(l.cap, ns);
      ReplaceNamespace(l, s, s.pc.n, ns.(stage := Running(0)));
    } else if s.pc.Draining? {
      CountBounds(s.namespaces, HoldsWaitGroup);
    }
  }

  /** A step inside one namespace that keeps it consistent and accounts for what it released. */
  lemma InsideKeepsInv(l: Limits, s: System, i: nat, ns: Namespace, t: System)
    requires Inv(l, s) && i < |s.namespaces| && NamespaceOk(l.cap, ns)
    requires t.pc == s.pc && t.namespaces == s.namespaces[i := ns]
    requires t.semaphore == s.semaphore - W.B(IsRunning(s.namespaces[i])) + W.B(IsRunning(ns))
    requires t.waitGroup == s.waitGroup - W.B(HoldsWaitGroup(s.namespaces[i])) + W.B(HoldsWaitGroup(ns))
    requires ns.stage == s.namespaces[i].stage || (s.namespaces[i].stage.Running? && ns.stage != Queued
             && !ns.stage.Done?)
             || (s.namespaces[i].stage.Left? && ns.stage.Done?)
    requires IsRunning(ns) ==> IsRunning(s.namespaces[i])
    ensures Inv(l, t)
  {
    ReplaceNamespace(l, s, i, ns);
    assert s.pc.Returned? ==> s.namespaces[i].stage == Done || s.namespaces[i].stage == Queued;
  }

  lemma StepKeepsInv(l: Limits, s: System, a: Action)
    requires Inv(l, s) && Enabled(l, s, a)
    ensures Inv(l, Step(l, s, a))
  {
    if a.Loop? {
      LoopKeepsInv(l, s);
    } else if a.Cancel? {
    } else {
      var ns, t := s.namespaces[a.i], Step(l, s, a);
      assert ns in s.namespaces;
      StageKeepsNamespace(l.cap, ns);
      if a.Work? {
        WorkKeepsNamespace(l, ns, a.k, a.step);
      }
      InsideKeepsInv(l, s, a.i, t.namespaces[a.i], t);
    }
  }

  ghost function Execute(l: Limits, s: System, actions: seq<Action>): Option<System> {
    if actions == [] then Some(s)
    else
      match Execute(l, s, actions[..|actions| - 1])
      case None => None
      case Some(t) =>
        if Enabled(l, t, actions[|actions| - 1]) then Some(Step(l, t, actions[|actions| - 1])) else None
  }

  ghost predicate Reaches(l: Limits, pairs: seq<seq<nat>>, actions: seq<Action>, s: System) {
    Execute(l, Initial(pairs), actions) == Some(s)
  }

  lemma {:induction false} InvAlways(l: Limits, pairs: seq<seq<nat>>, actions: seq<Action>, s: System)
    requires Reaches(l, pairs, actions, s)
    ensures Inv(l, s)
  {
    if actions == [] {
      InitialInv(l, pairs);
    } else {
      var t := Execute(l, Initial(pairs), actions[..|actions| - 1]).value;
      InvAlways(l, pairs, actions[..|actions| - 1], t);
      StepKeepsInv(l, t, actions[|actions| - 1]);
    }
  }

  /** The loop over namespaces ended early. */
  predicate Cancelled(pc: Pc) { pc == Draining(true) || pc == Returned(true) }

  lemma {:induction false} CancelledByCancel(l: Limits, pairs: seq<seq<nat>>, actions: seq<Action>, s: System)
    requires Reaches(l, pairs, actions, s)
    ensures Cancelled(s.pc) <==> Cancel in actions
    ensures s.pc.Acquire? ==> Enabled(l, s, Cancel)
  {
    InvAlways(l, pairs, actions, s);
    if actions == [] {
    } else {
      var rest, a := actions[..|actions| - 1], actions[|actions| - 1];
      var t := Execute(l, Initial(pairs), rest).value;
      CancelledByCancel(l, pairs, rest, t);
      assert actions == rest + [a];
    }
  }

  /**
   A reconciliation reports cancellation exactly when it was cancelled while waiting for a
   namespace slot, which it can be at any such moment; otherwise it has run every workload.
   */
  lemma EndsExactly(l: Limits, pairs: seq<seq<nat>>, actions: seq<Action>, s: System)
    requires Reaches(l, pairs, actions, s)
    ensures s.pc.Acquire? ==> Enabled(l, s, Cancel)
    ensures s.pc.Returned? ==> (s.pc.cancelled <==> Cancel in actions)
    ensures s.pc == Returned(false) ==>
              forall ns, w :: ns in s.namespaces && w in ns.workloads ==> w.pc.Returned?
  {
    InvAlways(l, pairs, actions, s);
    CancelledByCancel(l, pairs, actions, s);
    if s.pc == Returned(false) {
      forall ns, w | ns in s.namespaces && w in ns.workloads ensures w.pc.Returned? {
        assert NamespaceOk(l.cap, ns) && ns.stage == Done;
      }
    }
  }

  // --- how many scans are in flight ---

  function InFlightIn(ws: seq<W.Workload>): int {
    if ws == [] then 0 else InFlightIn(ws[..|ws| - 1]) + ws[|ws| - 1].gauge
  }

  /** The in-flight gauge, which all workloads share. */
  function InFlight(nss: seq<Namespace>): int {
    if nss == [] then 0 else InFlight(nss[..|nss| - 1]) + InFlightIn(nss[|nss| - 1].workloads)
  }

  function AbortedIn(nss: seq<Namespace>): nat {
    if nss == [] then 0 else AbortedIn(nss[..|nss| - 1]) + Count(nss[|nss| - 1].workloads, Aborted)
  }

  lemma GaugeBound(cap: nat, w: W.Workload)
    requires W.Inv(cap, w)
    ensures w.gauge <= cap
    ensures Aborted(w) ==> w.gauge <= cap - 1
    ensures Untouched(w) ==> w.gauge == 0
    ensures w.pc.Returned? && !Aborted(w) ==> w.gauge == 0
  {
    CountImplies(w.workers, W.InFlight, W.HoldsSemaphore);
    CountBounds(w.workers, W.InFlight);
  }

  /** What aborted workloads may have left running. */
  function Excess(cap: nat, ws: seq<W.Workload>): int {
    if ws == [] then 0 else Excess(cap, ws[..|ws| - 1]) + if Aborted(ws[|ws| - 1]) then cap - 1 else 0
  }

  /** What the namespaces may have in flight. */
  function Room(cap: nat, nss: seq<Namespace>): int {
    if nss == [] then 0
    else
      var last := nss[|nss| - 1];
      Room(cap, nss[..|nss| - 1]) + Excess(cap, last.workloads) + if IsRunning(last) then cap else 0
  }

  lemma Distribute(a: int, b: int, c: int)
    ensures (a + b) * c == a * c + b * c
  {
  }

  lemma {:induction false} ExcessIs(cap: nat, ws: seq<W.Workload>)
    ensures Excess(cap, ws) == Count(ws, Aborted) * (cap - 1)
  {
    if ws == [] {
    } else {
      ExcessIs(cap, ws[..|ws| - 1]);
      Distribute(Count(ws[..|ws| - 1], Aborted), 1, cap - 1);
    }
  }

  lemma {:induction false} RoomIs(cap: nat, nss: seq<Namespace>)
    ensures Room(cap, nss) == Count(nss, IsRunning) * cap + AbortedIn(nss) * (cap - 1)
  {
    if nss == [] {
    } else {
      var rest, last := nss[..|nss| - 1], nss[|nss| - 1];
      RoomIs(cap, rest);
      ExcessIs(cap, last.workloads);
      Distribute(Count(rest, IsRunning), 1, cap);
      Distribute(AbortedIn(rest), Count(last.workloads, Aborted), cap - 1);
    }
  }

  /** Returned workloads count only what their aborts left running; a current one adds at most cap. */
  lemma {:induction false} PrefixBound(cap: nat, ws: seq<W.Workload>, current: nat)
    requires forall w :: w in ws ==> W.Inv(cap, w)
    requires forall j :: 0 <= j < |ws| && j < current ==> ws[j].pc.Returned?
    requires forall j :: current < j < |ws| ==> Untouched(ws[j])
    ensures InFlightIn(ws) <= Excess(cap, ws) + if current < |ws| then cap else 0
  {
    if ws == [] {
    } else {
      var n := |ws| - 1;
      assert ws[n] in ws;
      PrefixBound(cap, ws[..n], current);
      GaugeBound(cap, ws[n]);
    }
  }

  lemma QueuedBound(cap: nat, ws: seq<W.Workload>)
    requires forall w :: w in ws ==> W.Inv(cap, w) && Untouched(w)
    ensures InFlightIn(ws) == Excess(cap, ws) == 0
  {
    if ws != [] {
      assert ws[|ws| - 1] in ws;
      GaugeBound(cap, ws[|ws| - 1]);
      QueuedBound(cap, ws[..|ws| - 1]);
    }
  }

  lemma NamespaceBound(cap: nat, ns: Namespace)
    requires NamespaceOk(cap, ns)
    ensures InFlightIn(ns.workloads) <= Excess(cap, ns.workloads) + if ns.stage.Running? then cap else 0
  {
    match ns.stage {
      case Queued =>
        QueuedBound(cap, ns.workloads);
        assert forall k :: 0 <= k < |ns.workloads| ==> ns.workloads[k] in ns.workloads;
      case Running(k) => PrefixBound(cap, ns.workloads, k);
      case _ => PrefixBound(cap, ns.workloads, |ns.workloads|);
    }
  }

  lemma {:induction false} TotalBound(cap: nat, nss: seq<Namespace>)
    requires forall ns :: ns in nss ==> NamespaceOk(cap, ns)
    ensures InFlight(nss) <= Room(cap, nss)
  {
    if nss == [] {
    } else {
      var n := |nss| - 1;
      assert nss[n] in nss;
      TotalBound(cap, nss[..n]);
      NamespaceBound(cap, nss[n]);
    }
  }

  lemma ProductMonotone(a: nat, b: nat, c: nat)
    requires a <= b
    ensures a * c <= b * c
  {
    assert b * c - a * c == (b - a) * c;
  }

  /**
   In every interleaving the scans in flight number at most N * cap, plus cap - 1 for each
   workload that was cut short by a backpressure error; so without such errors, at most N * cap.
   */
  lemma InFlightBound(l: Limits, pairs: seq<seq<nat>>, actions: seq<Action>, s: System)
    requires Reaches(l, pairs, actions, s)
    ensures InFlight(s.namespaces) <= l.namespaces * l.cap + AbortedIn(s.namespaces) * (l.cap - 1)
    ensures AbortedIn(s.namespaces) == 0 ==> InFlight(s.namespaces) <= l.namespaces * l.cap
  {
    InvAlways(l, pairs, actions, s);
    TotalBound(l.cap, s.namespaces);
    RoomIs(l.cap, s.namespaces);
    ProductMonotone(Count(s.namespaces, IsRunning), l.namespaces, l.cap);
  }

  // --- the excess is real ---

  ghost function Lift(i: nat, k: nat, steps: seq<W.Action>): seq<Action> {
    if steps == [] then [] else Lift(i, k, steps[..|steps| - 1]) + [Work(i, k, steps[|steps| - 1])]
  }

  function WithWorkload(s: System, i: nat, k: nat, w: W.Workload): System
    requires i < |s.namespaces| && k < |s.namespaces[i].workloads|
  {
    s.(namespaces := s.namespaces[i := s.namespaces[i].(workloads := s.namespaces[i].workloads[k := w])])
  }

  lemma LiftStep(l: Limits, s: System, i: nat, k: nat, v: W.Workload, step: W.Action)
    requires i < |s.namespaces| && k < |s.namespaces[i].workloads| && s.namespaces[i].stage == Running(k)
    requires W.Enabled(l.cap, v, step)
    ensures var t := WithWorkload(s, i, k, v);
            && Enabled(l, t, Work(i, k, step))
            && Step(l, t, Work(i, k, step)) == WithWorkload(s, i, k, W.Step(l.cap, v, step))
  {
    var ws, w := s.namespaces[i].workloads, W.Step(l.cap, v, step);
    assert ws[k := v][k := w] == ws[k := w];
    var a, b := s.namespaces[i].(workloads := ws[k := v]), s.namespaces[i].(workloads := ws[k := w]);
    assert s.namespaces[i := a][i := b] == s.namespaces[i := b];
  }

  lemma {:induction false} LiftExecutes(l: Limits, s: System, i: nat, k: nat, steps: seq<W.Action>, w: W.Workload)
    requires i < |s.namespaces| && k < |s.namespaces[i].workloads| && s.namespaces[i].stage == Running(k)
    requires W.Execute(l.cap, s.namespaces[i].workloads[k], steps) == Some(w)
    ensures Execute(l, s, Lift(i, k, steps)) == Some(WithWorkload(s, i, k, w))
  {
    if steps == [] {
      assert s.namespaces[i].workloads[k := w] == s.namespaces[i].workloads;
      assert s.namespaces[i := s.namespaces[i]] == s.namespaces;
    } else {
      var rest, step := steps[..|steps| - 1], steps[|steps| - 1];
      var v := W.Execute(l.cap, s.namespaces[i].workloads[k], rest).value;
      LiftExecutes(l, s, i, k, rest, v);
      LiftStep(l, s, i, k, v, step);
      OneStep(l, WithWorkload(s, i, k, v), Work(i, k, step));
      ExecuteConcat(l, s, Lift(i, k, rest), WithWorkload(s, i, k, v), [Work(i, k, step)]);
    }
  }

  lemma {:induction false} ExecuteConcat(l: Limits, s: System, a: seq<Action>, t: System, b: seq<Action>)
    requires Execute(l, s, a) == Some(t)
    ensures Execute(l, s, a + b) == Execute(l, t, b)
  {
    if b == [] {
      assert a + b == a;
    } else {
      assert (a + b)[..|a + b| - 1] == a + b[..|b| - 1];
      ExecuteConcat(l, s, a, t, b[..|b| - 1]);
    }
  }

  lemma OneStep(l: Limits, s: System, a: Action)
    requires Enabled(l, s, a)
    ensures Execute(l, s, [a]) == Some(Step(l, s, a))
  {
    assert [a][..0] == [];
  }

  /** A namespace whose first a workloads aborted with cap - 1 scans running, and whose next one runs cap. */
  ghost predicate Crowded(cap: nat, a: nat, ws: seq<W.Workload>) {
    && |ws| == a + 1
    && (forall j :: 0 <= j < a ==> Aborted(ws[j]) && ws[j].gauge == cap - 1)
    && ws[a].gauge == cap && !Aborted(ws[a])
  }

  /** The same, while it is being filled: workload k is next. */
  ghost predicate Crowding(cap: nat, a: nat, k: nat, ws: seq<W.Workload>) {
    && |ws| == a + 1 && k <= a
    && (forall j :: 0 <= j < k ==> Aborted(ws[j]) && ws[j].gauge == cap - 1)
    && (forall j :: k <= j <= a ==> ws[j] == W.Initial(cap))
  }

  ghost function WithNamespace(s: System, i: nat, ns: Namespace): System
    requires i < |s.namespaces|
  {
    s.(namespaces := s.namespaces[i := ns])
  }

  /** Workload k aborts with cap - 1 scans running, and the namespace moves on. */
  lemma OneAborts(l: Limits, s: System, i: nat, a: nat, k: nat) returns (actions: seq<Action>, ws: seq<W.Workload>)
    requires l.cap >= 1 && i < |s.namespaces| && s.namespaces[i].stage == Running(k) && k < a
    requires Crowding(l.cap, a, k, s.namespaces[i].workloads)
    ensures Crowding(l.cap, a, k + 1, ws)
    ensures Execute(l, s, actions) == Some(WithNamespace(s, i, Namespace(Running(k + 1), ws)))
  {
    var steps, w := W.AbortsFull(l.cap);
    LiftExecutes(l, s, i, k, steps, w);
    var t := WithWorkload(s, i, k, w);
    ws := s.namespaces[i].workloads[k := w];
    assert t.namespaces[i] == Namespace(Running(k), ws);
    OneStep(l, t, NextWorkload(i));
    ExecuteConcat(l, s, Lift(i, k, steps), t, [NextWorkload(i)]);
    actions := Lift(i, k, steps) + [NextWorkload(i)];
    var n1, n2 := Namespace(Running(k), ws), Namespace(Running(k + 1), ws);
    assert s.namespaces[i := n1][i := n2] == s.namespaces[i := n2];
  }

  lemma NamespaceCrowds(l: Limits, s: System, i: nat, a: nat, k: nat)
    returns (actions: seq<Action>, ws: seq<W.Workload>)
    requires l.cap >= 1 && i < |s.namespaces| && s.namespaces[i].stage == Running(k)
    requires Crowding(l.cap, a, k, s.namespaces[i].workloads)
    ensures Crowded(l.cap, a, ws)
    ensures Execute(l, s, actions) == Some(WithNamespace(s, i, Namespace(Running(a), ws)))
    decreases a - k
  {
    if k == a {
      var steps, w := W.FillsUp(l.cap);
      LiftExecutes(l, s, i, k, steps, w);
      actions, ws := Lift(i, k, steps), s.namespaces[i].workloads[k := w];
    } else {
      var first, ws1 := OneAborts(l, s, i, a, k);
      var n1 := Namespace(Running(k + 1), ws1);
      var t := WithNamespace(s, i, n1);
      var rest;
      rest, ws := NamespaceCrowds(l, t, i, a, k + 1);
      ExecuteConcat(l, s, first, t, rest);
      actions := first + rest;
      var n2 := Namespace(Running(a), ws);
      assert s.namespaces[i := n1][i := n2] == s.namespaces[i := n2];
    }
  }

  /** Namespace i gets aborts[i] workloads to abort and one more, all of cap pairs. */
  function CrowdedPlan(cap: nat, aborts: seq<nat>): seq<seq<nat>> {
    seq(|aborts|, i requires 0 <= i < |aborts| => seq(aborts[i] + 1, _ => cap))
  }

  /** The first n namespaces are crowded, the others wait. */
  ghost predicate CrowdedUpTo(cap: nat, aborts: seq<nat>, n: nat, s: System) {
    && n <= |aborts| == |s.namespaces|
    && s.pc == Add(n) && s.semaphore == n && s.waitGroup == n
    && (forall i :: 0 <= i < n ==> CrowdedAt(cap, aborts[i], s.namespaces[i]))
    && (forall i :: n <= i < |aborts| ==> s.namespaces[i] == InitialNamespace(seq(aborts[i] + 1, _ => cap)))
  }

  ghost predicate CrowdedAt(cap: nat, a: nat, ns: Namespace) {
    ns.stage.Running? && Crowded(cap, a, ns.workloads)
  }

  lemma {:induction false} SystemCrowds(l: Limits, aborts: seq<nat>, n: nat) returns (actions: seq<Action>, s: System)
    requires l.cap >= 1 && n <= |aborts| <= l.namespaces
    ensures Reaches(l, CrowdedPlan(l.cap, aborts), actions, s) && CrowdedUpTo(l.cap, aborts, n, s)
  {
    var s0 := Initial(CrowdedPlan(l.cap, aborts));
    if n == 0 {
      actions, s := [], s0;
    } else {
      var before, t := SystemCrowds(l, aborts, n - 1);
      var more;
      more, s := NextCrowds(l, aborts, n - 1, t);
      ExecuteConcat(l, s0, before, t, more);
      actions := before + more;
    }
  }

  lemma NextCrowds(l: Limits, aborts: seq<nat>, n: nat, t: System) returns (actions: seq<Action>, s: System)
    requires l.cap >= 1 && n < |aborts| <= l.namespaces && CrowdedUpTo(l.cap, aborts, n, t)
    ensures Execute(l, t, actions) == Some(s) && CrowdedUpTo(l.cap, aborts, n + 1, s)
  {
    var t1 := Step(l, t, Loop);
    var t2 := Step(l, t1, Loop);
    OneStep(l, t, Loop);
    OneStep(l, t1, Loop);
    ExecuteConcat(l, t, [Loop], t1, [Loop]);
    var more, ws := NamespaceCrowds(l, t2, n, aborts[n], 0);
    ExecuteConcat(l, t, [Loop] + [Loop], t2, more);
    actions := [Loop] + [Loop] + more;
    s := WithNamespace(t2, n, Namespace(Running(aborts[n]), ws));
  }

  lemma {:induction false} AbortedCounts(cap: nat, ws: seq<W.Workload>)
    requires forall j :: 0 <= j < |ws| ==> Aborted(ws[j]) && ws[j].gauge == cap - 1
    ensures InFlightIn(ws) == |ws| * (cap - 1) && Count(ws, Aborted) == |ws|
  {
    if ws == [] {
    } else {
      AbortedCounts(cap, ws[..|ws| - 1]);
      Distribute(|ws| - 1, 1, cap - 1);
    }
  }

  lemma CrowdedCounts(cap: nat, a: nat, ws: seq<W.Workload>)
    requires Crowded(cap, a, ws)
    ensures InFlightIn(ws) == a * (cap - 1) + cap && Count(ws, Aborted) == a
  {
    AbortedCounts(cap, ws[..a]);
  }

  function Sum(s: seq<nat>): nat {
    if s == [] then 0 else Sum(s[..|s| - 1]) + s[|s| - 1]
  }

  lemma {:induction false} AllCrowdedCounts(cap: nat, aborts: seq<nat>, nss: seq<Namespace>)
    requires |aborts| == |nss| && forall i :: 0 <= i < |nss| ==> CrowdedAt(cap, aborts[i], nss[i])
    ensures InFlight(nss) == |nss| * cap + Sum(aborts) * (cap - 1) && AbortedIn(nss) == Sum(aborts)
  {
    if nss == [] {
    } else {
      var n := |nss| - 1;
      AllCrowdedCounts(cap, aborts[..n], nss[..n]);
      CrowdedCounts(cap, aborts[n], nss[n].workloads);
      Distribute(n, 1, cap);
      Distribute(Sum(aborts[..n]), aborts[n], cap - 1);
    }
  }

  /**
   The bound is attained: for all limits of at least one, and any number of aborts in each of N
   namespaces, some run has N * cap scans in flight plus cap - 1 for every abort.
   */
  lemma InFlightBoundAttained(l: Limits, aborts: seq<nat>) returns (actions: seq<Action>, s: System)
    requires l.cap >= 1 && |aborts| == l.namespaces
    ensures Reaches(l, CrowdedPlan(l.cap, aborts), actions, s)
    ensures AbortedIn(s.namespaces) == Sum(aborts)
    ensures InFlight(s.namespaces) == l.namespaces * l.cap + Sum(aborts) * (l.cap - 1)
  {
    actions, s := SystemCrowds(l, aborts, |aborts|);
    AllCrowdedCounts(l.cap, aborts, s.namespaces);
  }

  ghost predicate ProductBound(l: Limits) {
    forall pairs, actions, s :: Reaches(l, pairs, actions, s) ==> InFlight(s.namespaces) <= l.namespaces * l.cap
  }

  ghost predicate AllQueued(s: System) {
    forall i :: 0 <= i < |s.namespaces| ==> s.namespaces[i].stage == Queued
  }

  lemma StepKeepsQueued(l: Limits, s: System, a: Action)
    requires l.namespaces == 0 && AllQueued(s) && Enabled(l, s, a)
    ensures AllQueued(Step(l, s, a))
  {
  }

  /** No namespace gets past a semaphore without slots. */
  lemma {:induction false} NothingRuns(l: Limits, pairs: seq<seq<nat>>, actions: seq<Action>, s: System)
    requires l.namespaces == 0 && Reaches(l, pairs, actions, s)
    ensures AllQueued(s)
  {
    if actions == [] {
    } else {
      var t := Execute(l, Initial(pairs), actions[..|actions| - 1]).value;
      NothingRuns(l, pairs, actions[..|actions| - 1], t);
      StepKeepsQueued(l, t, actions[|actions| - 1]);
    }
  }

  lemma {:induction false} NothingInFlight(cap: nat, nss: seq<Namespace>)
    requires forall i :: 0 <= i < |nss| ==> nss[i].stage == Queued && NamespaceOk(cap, nss[i])
    ensures InFlight(nss) == 0
  {
    if nss == [] {
    } else {
      QueuedBound(cap, nss[|nss| - 1].workloads);
      NothingInFlight(cap, nss[..|nss| - 1]);
    }
  }

  /**
   Scans in flight stay within N * cap in every run exactly when there is no room for a namespace
   or for a second scan.
   */
  lemma ProductBoundExactly(l: Limits)
    ensures ProductBound(l) <==> l.namespaces == 0 || l.cap <= 1
  {
    if l.namespaces == 0 || l.cap <= 1 {
      forall pairs, actions, s | Reaches(l, pairs, actions, s) ensures InFlight(s.namespaces) <= l.namespaces * l.cap {
        if l.namespaces == 0 {
          NothingRuns(l, pairs, actions, s);
          InvAlways(l, pairs, actions, s);
          assert forall i :: 0 <= i < |s.namespaces| ==> s.namespaces[i] in s.namespaces;
          NothingInFlight(l.cap, s.namespaces);
        } else {
          InFlightBound(l, pairs, actions, s);
        }
      }
    } else {
      var aborts := seq(l.namespaces, _ => 1);
      var actions, s := InFlightBoundAttained(l, aborts);
      assert Sum(aborts) == Sum(aborts[..l.namespaces - 1]) + 1;
      ProductMonotone(1, Sum(aborts), l.cap - 1);
    }
  }

  // --- progress ---

  ghost predicate AllDone(s: System) {
    && s.pc.Returned?
    && (forall ns :: ns in s.namespaces ==> ns.stage == Queued || ns.stage == Done)
    && forall ns, w :: ns in s.namespaces && w in ns.workloads ==> W.Drained(w)
  }

  /** With room for one namespace and one scan, some step is enabled until everything has finished. */
  lemma Progress(l: Limits, s: System)
    requires Inv(l, s) && l.namespaces >= 1 && l.cap >= 1 && !AllDone(s)
    ensures exists a: Action :: Enabled(l, s, a)
  {
    CountBounds(s.namespaces, IsRunning);
    CountBounds(s.namespaces, HoldsWaitGroup);
    if i, k :| (0 <= i < |s.namespaces| && 0 <= k < |s.namespaces[i].workloads|
                && !W.Drained(s.namespaces[i].workloads[k])) {
      var ns := s.namespaces[i];
      assert ns in s.namespaces && ns.workloads[k] in ns.workloads;
      W.WorkerCanMove(l.cap, ns.workloads[k]);
      var step: W.Action :| (step.Scanned? || step.Advance?) && W.Enabled(l.cap, ns.workloads[k], step);
      assert Enabled(l, s, Work(i, k, step));
    } else if i :| 0 <= i < |s.namespaces| && s.namespaces[i].stage.Running? {
      var ns := s.namespaces[i];
      assert ns in s.namespaces;
      var k := ns.stage.k;
      if k == |ns.workloads| {
        assert Enabled(l, s, Leave(i));
      } else if ns.workloads[k].pc.Returned? {
        assert Enabled(l, s, NextWorkload(i));
      } else {
        assert ns.workloads[k] in ns.workloads;
        W.LoopCanMove(l.cap, ns.workloads[k]);
        assert Enabled(l, s, Work(i, k, W.Dispatch));
      }
    } else if i :| 0 <= i < |s.namespaces| && s.namespaces[i].stage.Left? {
      assert Enabled(l, s, Finish(i));
    } else {
      assert Enabled(l, s, Loop);
    }
  }

  function WorkLeft(ws: seq<W.Workload>): nat {
    if ws == [] then 0 else WorkLeft(ws[..|ws| - 1]) + W.Measure(ws[|ws| - 1])
  }

  function StageLeft(ns: Namespace): nat {
    match ns.stage
    case Queued => |ns.workloads| + 5
    case Running(k) => if k <= |ns.workloads| then |ns.workloads| - k + 2 else 2
    case Left => 1
    case Done => 0
  }

  function NamespacesLeft(nss: seq<Namespace>): nat {
    if nss == [] then 0
    else NamespacesLeft(nss[..|nss| - 1]) + StageLeft(nss[|nss| - 1]) + WorkLeft(nss[|nss| - 1].workloads)
  }

  function Measure(s: System): nat {
    NamespacesLeft(s.namespaces) +
    match s.pc case Add(_) => 4 case Acquire(_) => 3 case Draining(_) => 1 case Returned(_) => 0
  }

  lemma {:induction false} WorkLeftUpdate(ws: seq<W.Workload>, k: nat, w: W.Workload)
    requires k < |ws|
    ensures WorkLeft(ws[k := w]) == WorkLeft(ws) - W.Measure(ws[k]) + W.Measure(w)
  {
    var n := |ws| - 1;
    if k == n {
      assert ws[k := w][..n] == ws[..n];
    } else {
      assert ws[k := w][..n] == ws[..n][k := w];
      WorkLeftUpdate(ws[..n], k, w);
    }
  }

  lemma {:induction false} NamespacesLeftUpdate(nss: seq<Namespace>, i: nat, ns: Namespace)
    requires i < |nss|
    ensures NamespacesLeft(nss[i := ns]) + StageLeft(nss[i]) + WorkLeft(nss[i].workloads)
         == NamespacesLeft(nss) + StageLeft(ns) + WorkLeft(ns.workloads)
  {
    var n := |nss| - 1;
    if i == n {
      assert nss[i := ns][..n] == nss[..n];
    } else {
      assert nss[i := ns][..n] == nss[..n][i := ns];
      NamespacesLeftUpdate(nss[..n], i, ns);
    }
  }

  lemma WorkDecreases(l: Limits, s: System, i: nat, k: nat, step: W.Action)
    requires Inv(l, s) && Enabled(l, s, Work(i, k, step))
    ensures Measure(Step(l, s, Work(i, k, step))) < Measure(s)
  {
    var ns := s.namespaces[i];
    var w := W.Step(l.cap, ns.workloads[k], step);
    assert ns in s.namespaces && ns.workloads[k] in ns.workloads;
    W.StepDecreases(l.cap, ns.workloads[k], step);
    WorkLeftUpdate(ns.workloads, k, w);
    NamespacesLeftUpdate(s.namespaces, i, ns.(workloads := ns.workloads[k := w]));
  }

  lemma LoopDecreases(l: Limits, s: System)
    requires Inv(l, s) && Enabled(l, s, Loop)
    ensures Measure(Step(l, s, Loop)) < Measure(s)
  {
    if s.pc.Acquire? {
      var n := s.pc.n;
      NamespacesLeftUpdate(s.namespaces, n, s.namespaces[n].(stage := Running(0)));
    }
  }

  lemma StageDecreases(l: Limits, s: System, a: Action)
    requires Inv(l, s) && Enabled(l, s, a) && (a.NextWorkload? || a.Leave? || a.Finish?)
    ensures Measure(Step(l, s, a)) < Measure(s)
  {
    NamespacesLeftUpdate(s.namespaces, a.i, Step(l, s, a).namespaces[a.i]);
  }

  /** Every step of every participant brings the end nearer, so a reconciliation always finishes. */
  lemma StepDecreases(l: Limits, s: System, a: Action)
    requires Inv(l, s) && Enabled(l, s, a)
    ensures Measure(Step(l, s, a)) < Measure(s)
  {
    match a {
      case Loop => LoopDecreases(l, s);
      case Cancel =>
      case Work(i, k, step) => WorkDecreases(l, s, i, k, step);
      case _ => StageDecreases(l, s, a);
    }
  }

  /** So every run is at most as long as the initial measure, and one that cannot go on has finished. */
  lemma {:induction false} RunsEnd(l: Limits, pairs: seq<seq<nat>>, actions: seq<Action>, s: System)
    requires Reaches(l, pairs, actions, s)
    ensures |actions| + Measure(s) <= Measure(Initial(pairs))
    ensures l.namespaces >= 1 && l.cap >= 1 && (forall a: Action :: !Enabled(l, s, a)) ==> AllDone(s)
  {
    InvAlways(l, pairs, actions, s);
    if actions == [] {
    } else {
      var rest, a := actions[..|actions| - 1], actions[|actions| - 1];
      var t := Execute(l, Initial(pairs), rest).value;
      InvAlways(l, pairs, rest, t);
      RunsEnd(l, pairs, rest, t);
      StepDecreases(l, t, a);
    }
    if l.namespaces >= 1 && l.cap >= 1 && !AllDone(s) {
      Progress(l, s);
    }
  }
}
