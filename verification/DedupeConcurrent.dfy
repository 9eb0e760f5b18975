/**
 Handlers of different workloads, which do not share a lock: each store request is one atomic
 step, and between two of them any number of steps of other handlers may happen.
 */
module DedupeConcurrent {
  import opened Wrappers
  import opened Clock
  import opened EntryCodec
  import opened ConfigMapApi
  import opened Fingerprints
  import opened Publishing
  import opened DedupeState
  import opened DedupeRuns

  /**
   Where a handler is.  Fetched: has read its tag's pointer; `previous` is the entry to delete, ""
   for none.  `now` is the timestamp it took after cleaning up.
   */
  datatype Phase =
    | Waiting
    | Fetched(previous: string)
    | Cleaned
    | Stamped(now: Time)
    | Pointed(now: Time)
    | LookedUp(now: Time, last: string)
    | Finished(outcome: Outcome)

  datatype Handler = Handler(job: Job, faults: Faults, phase: Phase)

  datatype State = State(entries: Entries, handlers: seq<Handler>, clock: Time)

  /** Handler i takes its next step, the clock reading `at`. */
  datatype Action = Act(i: nat, at: Time)

  // --- one handler ---

  function Fetch(o: Options, m: Entries, h: Handler, at: Time): (Entries, Handler) {
    if h.faults.getPointer then (m, h.(phase := Fetched("")))
    else
      var (m1, pointer) := GetEntry(o.ttl, m, PointerKey(h.job), at);
      var keep := pointer == None || pointer.value.fingerprint == StateKey(h.job);
      (m1, h.(phase := Fetched(if keep then "" else pointer.value.fingerprint)))
  }

  function Delete(m: Entries, h: Handler): (Entries, Handler)
    requires h.phase.Fetched?
  {
    (if h.phase.previous == "" || h.faults.deletePrevious then m else m - {h.phase.previous}, h.(phase := Cleaned))
  }

  function LookUp(o: Options, m: Entries, h: Handler, at: Time): (Entries, Handler)
    requires h.phase.Pointed?
  {
    var (m1, last) := LastFingerprint(o, m, h.job, at, h.faults);
    (m1, h.(phase := LookedUp(h.phase.now, last)))
  }

  function Conclude(o: Options, m: Entries, h: Handler): (Entries, Handler)
    requires h.phase.LookedUp?
  {
    var outcome := Decide(o, h.job, h.phase.last, h.faults);
    (Record(o, m, h.job, h.phase.now, outcome), h.(phase := Finished(outcome)))
  }

  function Advance(o: Options, m: Entries, h: Handler, at: Time): (Entries, Handler)
    requires !h.phase.Finished?
  {
    match h.phase
    case Waiting => Fetch(o, m, h, at)
    case Fetched(_) => Delete(m, h)
    case Cleaned => (m, h.(phase := Stamped(at)))
    case Stamped(now) => (Point(m, h.job, now, h.faults), h.(phase := Pointed(now)))
    case Pointed(_) => LookUp(o, m, h, at)
    case LookedUp(_, _) => Conclude(o, m, h)
  }

  /** Undisturbed, the six steps are the serialised handler. */
  lemma AloneIsHandle(o: Options, m: Entries, j: Job, t: Readings, f: Faults, b: Time, d: Time, e: Time)
    ensures var (m1, h1) := Advance(o, m, Handler(j, f, Waiting), t.cleanup);
            var (m2, h2) := Advance(o, m1, h1, b);
            var (m3, h3) := Advance(o, m2, h2, t.now);
            var (m4, h4) := Advance(o, m3, h3, d);
            var (m5, h5) := Advance(o, m4, h4, t.lookup);
            var (m6, h6) := Advance(o, m5, h5, e);
            (m6, h6.phase) == (Handle(o, m, j, t, f).0, Finished(Handle(o, m, j, t, f).1))
  {
    var (m1, h1) := Advance(o, m, Handler(j, f, Waiting), t.cleanup);
    assert Delete(m1, h1).0 == Cleanup(o, m, j, t.cleanup, f);
  }

  // --- executions ---

  ghost predicate Enabled(s: State, a: Action) {
    a.i < |s.handlers| && !s.handlers[a.i].phase.Finished? && s.clock <= a.at
  }

  function Step(o: Options, s: State, a: Action): State
    requires a.i < |s.handlers| && !s.handlers[a.i].phase.Finished?
  {
    var (m, h) := Advance(o, s.entries, s.handlers[a.i], a.at);
    State(m, s.handlers[a.i := h], a.at)
  }

  ghost function Execute(o: Options, s: State, actions: seq<Action>): Option<State> {
    if actions == [] then Some(s)
    else
      match Execute(o, s, actions[..|actions| - 1])
      case None => None
      case Some(t) =>
        if Enabled(t, actions[|actions| - 1]) then Some(Step(o, t, actions[|actions| - 1])) else None
  }

  predicate Running(h: Handler) {
    !h.phase.Waiting? && !h.phase.Finished?
  }

  /** No handler begins while another one of its tag and scanner is running. */
  ghost predicate Exclusive(s: State, a: Action) {
    a.i < |s.handlers| && s.handlers[a.i].phase.Waiting? ==>
      forall n :: 0 <= n < |s.handlers| && Running(s.handlers[n]) ==>
        PointerKey(s.handlers[n].job) != PointerKey(s.handlers[a.i].job)
  }

  ghost predicate ExclusiveRun(o: Options, s: State, actions: seq<Action>) {
    forall n, t :: 0 <= n < |actions| && Execute(o, s, actions[..n]) == Some(t) ==> Exclusive(t, actions[n])
  }

  // --- the invariant ---

  /** Between the delete and the set: the pointer is about to be overwritten. */
  predicate Moving(h: Handler) {
    (h.phase.Cleaned? || h.phase.Stamped?) && !h.faults.setPointer
  }

  /** q may be relied on to cover k: no handler is about to turn it away. */
  ghost predicate Stays(hs: seq<Handler>, q: string, k: string) {
    forall i :: 0 <= i < |hs| && Moving(hs[i]) && PointerKey(hs[i].job) == q ==> StateKey(hs[i].job) == k
  }

  ghost predicate Guarded(ttl: int, m: Entries, hs: seq<Handler>, t: Time) {
    forall k :: k in m && !IsPointerKey(k) && !Expired(ttl, m[k], t) ==>
      exists q :: Covers(m, q, k) && Stays(hs, q, k)
  }

  /** What a handler knows of its own pointer, which nobody else writes while it runs. */
  predicate PointerAsLeft(m: Entries, h: Handler) {
    var p, k := PointerKey(h.job), StateKey(h.job);
    match h.phase
    case Fetched(previous) =>
      && (previous != "" ==> !IsPointerKey(previous))
      && (!h.faults.setPointer ==>
            if previous != "" then p in m && m[p].fingerprint == previous
            else p in m ==> m[p].fingerprint == k)
    case Stamped(now) => p in m ==> m[p].scanned <= StoredTime(now)
    case Pointed(now) => h.faults.setPointer || Points(m, h.job, now)
    case LookedUp(now, _) => h.faults.setPointer || Points(m, h.job, now)
    case _ => true
  }

  predicate StampedBy(h: Handler, t: Time) {
    match h.phase
    case Stamped(now) => SECOND <= now <= t
    case Pointed(now) => SECOND <= now <= t
    case LookedUp(now, _) => SECOND <= now <= t
    case _ => true
  }

  ghost predicate HandlerOk(o: Options, m: Entries, h: Handler, t: Time) {
    !IsPointerKey(StateKey(h.job)) && HarmlessFaults(o, h.faults) && PointerAsLeft(m, h) && StampedBy(h, t)
  }

  ghost predicate OwnPointers(hs: seq<Handler>) {
    forall i, j :: 0 <= i < j < |hs| && Running(hs[i]) && Running(hs[j]) ==>
      PointerKey(hs[i].job) != PointerKey(hs[j].job)
  }

  ghost predicate Inv(o: Options, s: State) {
    && SECOND <= s.clock && Sane(s.entries, s.clock)
    && OwnPointers(s.handlers)
    && (forall i :: 0 <= i < |s.handlers| ==> HandlerOk(o, s.entries, s.handlers[i], s.clock))
    && Guarded(o.ttl, s.entries, s.handlers, s.clock)
  }

  /** Nothing at these keys, or the same. */
  predicate SameAt(m: Entries, n: Entries, q: string) {
    (q in m <==> q in n) && (q in m ==> m[q] == n[q])
  }

  // --- one step's effect on the store ---

  /** A handler writes no pointer but its own. */
  lemma OtherPointersKept(o: Options, m: Entries, h: Handler, at: Time, q: string)
    requires !h.phase.Finished? && !IsPointerKey(StateKey(h.job)) && PointerAsLeft(m, h)
    requires IsPointerKey(q) && q != PointerKey(h.job)
    ensures SameAt(m, Advance(o, m, h, at).0, q)
  {
  }

  lemma SaneWith(m: Entries, t: Time, at: Time, k: string, e: Entry)
    requires Sane(m, t) && SECOND <= t <= at && SECOND <= e.scanned <= at
    requires IsPointerKey(k) ==> e.fingerprint != "" && !IsPointerKey(e.fingerprint)
    ensures Sane(SetEntry(m, k, e), at)
  {
    StoredTimeBounds(e.scanned, e.scanned);
  }

  lemma SaneAfter(o: Options, m: Entries, h: Handler, t: Time, at: Time)
    requires Sane(m, t) && SECOND <= t <= at && !h.phase.Finished? && HandlerOk(o, m, h, t)
    ensures Sane(Advance(o, m, h, at).0, at)
  {
    match h.phase {
      case Stamped(now) =>
        SaneWith(m, t, at, PointerKey(h.job), Entry(StateKey(h.job), now, now, h.job.digest));
      case LookedUp(now, _) =>
        SaneWith(m, t, at, StateKey(h.job),
                 Entry(Fingerprint(o.hash, h.job.result), now, now, FindingCount(h.job.result)));
      case _ =>
    }
  }

  lemma OwnHandlerOk(o: Options, m: Entries, h: Handler, t: Time, at: Time)
    requires Sane(m, t) && SECOND <= t <= at && !h.phase.Finished? && HandlerOk(o, m, h, t)
    ensures var (n, g) := Advance(o, m, h, at); HandlerOk(o, n, g, at)
  {
    var p := PointerKey(h.job);
    match h.phase {
      case Cleaned =>
        StoredTimeBounds(at, if p in m then m[p].scanned else at);
      case _ =>
    }
  }

  // --- no step creates an orphan ---

  lemma FetchGuards(o: Options, s: State, i: nat, at: Time)
    requires Inv(o, s) && Enabled(s, Act(i, at)) && s.handlers[i].phase.Waiting?
    ensures var t := Step(o, s, Act(i, at)); Guarded(o.ttl, t.entries, t.handlers, at)
  {
    var t := Step(o, s, Act(i, at));
    forall k | k in t.entries && !IsPointerKey(k) && !Expired(o.ttl, t.entries[k], at)
      ensures exists q :: Covers(t.entries, q, k) && Stays(t.handlers, q, k)
    {
      var q :| Covers(s.entries, q, k) && Stays(s.handlers, q, k);
      assert Covers(t.entries, q, k) && Stays(t.handlers, q, k);
    }
  }

  lemma DeleteGuards(o: Options, s: State, i: nat, at: Time)
    requires Inv(o, s) && Enabled(s, Act(i, at)) && s.handlers[i].phase.Fetched?
    ensures var t := Step(o, s, Act(i, at)); Guarded(o.ttl, t.entries, t.handlers, at)
  {
    var t, h := Step(o, s, Act(i, at)), s.handlers[i];
    assert HandlerOk(o, s.entries, h, s.clock);
    forall k | k in t.entries && !IsPointerKey(k) && !Expired(o.ttl, t.entries[k], at)
      ensures exists q :: Covers(t.entries, q, k) && Stays(t.handlers, q, k)
    {
      var q :| Covers(s.entries, q, k) && Stays(s.handlers, q, k);
      assert Covers(t.entries, q, k) && Stays(t.handlers, q, k);
    }
  }

  lemma StampGuards(o: Options, s: State, i: nat, at: Time)
    requires Inv(o, s) && Enabled(s, Act(i, at)) && s.handlers[i].phase.Cleaned?
    ensures var t := Step(o, s, Act(i, at)); Guarded(o.ttl, t.entries, t.handlers, at)
  {
    var t := Step(o, s, Act(i, at));
    forall k | k in t.entries && !IsPointerKey(k) && !Expired(o.ttl, t.entries[k], at)
      ensures exists q :: Covers(t.entries, q, k) && Stays(t.handlers, q, k)
    {
      var q :| Covers(s.entries, q, k) && Stays(s.handlers, q, k);
      assert Covers(t.entries, q, k) && Stays(t.handlers, q, k);
    }
  }

  lemma PointGuards(o: Options, s: State, i: nat, at: Time)
    requires Inv(o, s) && Enabled(s, Act(i, at)) && s.handlers[i].phase.Stamped?
    ensures var t := Step(o, s, Act(i, at)); Guarded(o.ttl, t.entries, t.handlers, at)
  {
    var t, h := Step(o, s, Act(i, at)), s.handlers[i];
    assert HandlerOk(o, s.entries, h, s.clock);
    forall k | k in t.entries && !IsPointerKey(k) && !Expired(o.ttl, t.entries[k], at)
      ensures exists q :: Covers(t.entries, q, k) && Stays(t.handlers, q, k)
    {
      var q :| Covers(s.entries, q, k) && Stays(s.handlers, q, k);
      assert q == PointerKey(h.job) && !h.faults.setPointer ==> StateKey(h.job) == k;
      assert Covers(t.entries, q, k) && Stays(t.handlers, q, k);
    }
  }

  lemma LookUpGuards(o: Options, s: State, i: nat, at: Time)
    requires Inv(o, s) && Enabled(s, Act(i, at)) && s.handlers[i].phase.Pointed?
    ensures var t := Step(o, s, Act(i, at)); Guarded(o.ttl, t.entries, t.handlers, at)
  {
    var t := Step(o, s, Act(i, at));
    assert HandlerOk(o, s.entries, s.handlers[i], s.clock);
    forall k | k in t.entries && !IsPointerKey(k) && !Expired(o.ttl, t.entries[k], at)
      ensures exists q :: Covers(t.entries, q, k) && Stays(t.handlers, q, k)
    {
      var q :| Covers(s.entries, q, k) && Stays(s.handlers, q, k);
      assert Covers(t.entries, q, k) && Stays(t.handlers, q, k);
    }
  }

  lemma RecordGuards(o: Options, s: State, i: nat, at: Time)
    requires Inv(o, s) && Enabled(s, Act(i, at)) && s.handlers[i].phase.LookedUp?
    ensures var t := Step(o, s, Act(i, at)); Guarded(o.ttl, t.entries, t.handlers, at)
  {
    var t, h := Step(o, s, Act(i, at)), s.handlers[i];
    assert HandlerOk(o, s.entries, h, s.clock);
    var outcome := Decide(o, h.job, h.phase.last, h.faults);
    forall k | k in t.entries && !IsPointerKey(k) && !Expired(o.ttl, t.entries[k], at)
      ensures exists q :: Covers(t.entries, q, k) && Stays(t.handlers, q, k)
    {
      if k == StateKey(h.job) && outcome == Published(true) {
        var p := PointerKey(h.job);
        assert Covers(t.entries, p, k) && Stays(t.handlers, p, k);
      } else {
        var q :| Covers(s.entries, q, k) && Stays(s.handlers, q, k);
        assert Covers(t.entries, q, k) && Stays(t.handlers, q, k);
      }
    }
  }

  lemma StepGuards(o: Options, s: State, a: Action)
    requires Inv(o, s) && Enabled(s, a)
    ensures var t := Step(o, s, a); Guarded(o.ttl, t.entries, t.handlers, t.clock)
  {
    match s.handlers[a.i].phase {
      case Waiting => FetchGuards(o, s, a.i, a.at);
      case Fetched(_) => DeleteGuards(o, s, a.i, a.at);
      case Cleaned => StampGuards(o, s, a.i, a.at);
      case Stamped(_) => PointGuards(o, s, a.i, a.at);
      case Pointed(_) => LookUpGuards(o, s, a.i, a.at);
      case LookedUp(_, _) => RecordGuards(o, s, a.i, a.at);
    }
  }

  lemma OthersOk(o: Options, s: State, a: Action, j: nat)
    requires Inv(o, s) && Enabled(s, a) && j < |s.handlers| && j != a.i
    requires Exclusive(s, a)
    ensures HandlerOk(o, Step(o, s, a).entries, s.handlers[j], a.at)
  {
    var h, g := s.handlers[a.i], s.handlers[j];
    assert HandlerOk(o, s.entries, h, s.clock) && HandlerOk(o, s.entries, g, s.clock);
    if Running(g) {
      assert PointerKey(g.job) != PointerKey(h.job);
      OtherPointersKept(o, s.entries, h, a.at, PointerKey(g.job));
    }
  }

  lemma StepKeepsInv(o: Options, s: State, a: Action)
    requires Inv(o, s) && Enabled(s, a) && Exclusive(s, a)
    ensures Inv(o, Step(o, s, a))
  {
    var t, h := Step(o, s, a), s.handlers[a.i];
    assert HandlerOk(o, s.entries, h, s.clock);
    SaneAfter(o, s.entries, h, s.clock, a.at);
    OwnHandlerOk(o, s.entries, h, s.clock, a.at);
    forall j | 0 <= j < |s.handlers| && j != a.i ensures HandlerOk(o, t.entries, s.handlers[j], a.at) {
      OthersOk(o, s, a, j);
    }
    StepGuards(o, s, a);
  }

  // --- whole runs ---

  datatype Work = Work(job: Job, faults: Faults)

  /** All handlers still to begin, on an empty store. */
  function Initial(ws: seq<Work>, start: Time): State {
    State(map[], seq(|ws|, i requires 0 <= i < |ws| => Handler(ws[i].job, ws[i].faults, Waiting)), start)
  }

  lemma ExclusivePrefix(o: Options, s: State, actions: seq<Action>, n: nat)
    requires n <= |actions| && ExclusiveRun(o, s, actions)
    ensures ExclusiveRun(o, s, actions[..n])
  {
    forall k, t | 0 <= k < n && Execute(o, s, actions[..n][..k]) == Some(t) ensures Exclusive(t, actions[..n][k]) {
      assert actions[..n][..k] == actions[..k];
    }
  }

  lemma {:induction false} InvAlways(o: Options, ws: seq<Work>, start: Time, actions: seq<Action>, s: State)
    requires SECOND <= start && Execute(o, Initial(ws, start), actions) == Some(s)
    requires ExclusiveRun(o, Initial(ws, start), actions)
    requires forall w :: w in ws ==> !IsPointerKey(StateKey(w.job)) && HarmlessFaults(o, w.faults)
    ensures Inv(o, s)
  {
    if actions == [] {
      assert forall i :: 0 <= i < |ws| ==> ws[i] in ws;
    } else {
      var n := |actions| - 1;
      var t := Execute(o, Initial(ws, start), actions[..n]).value;
      ExclusivePrefix(o, Initial(ws, start), actions, n);
      InvAlways(o, ws, start, actions[..n], t);
      StepKeepsInv(o, t, actions[n]);
    }
  }

  lemma GuardedHasNoOrphans(o: Options, s: State)
    requires Inv(o, s)
    ensures NoOrphans(o.ttl, s.entries, s.clock)
  {
    forall k | k in s.entries && !IsPointerKey(k) && !Expired(o.ttl, s.entries[k], s.clock)
      ensures exists q :: Covers(s.entries, q, k)
    {
      var q :| Covers(s.entries, q, k) && Stays(s.handlers, q, k);
    }
  }

  /**
   However the requests of concurrent handlers interleave: as long as no two handlers of one tag
   and scanner run at once, and faults are harmless, no live entry is ever without a live pointer.
   */
  lemma NoConcurrentOrphans(o: Options, ws: seq<Work>, start: Time, actions: seq<Action>, s: State, t: Time)
    requires SECOND <= start && Execute(o, Initial(ws, start), actions) == Some(s) && s.clock <= t
    requires ExclusiveRun(o, Initial(ws, start), actions)
    requires forall w :: w in ws ==> !IsPointerKey(StateKey(w.job)) && HarmlessFaults(o, w.faults)
    ensures LiveCovered(o.ttl, s.entries, t)
  {
    InvAlways(o, ws, start, actions, s);
    GuardedHasNoOrphans(o, s);
    NoOrphansLater(o.ttl, s.entries, s.clock, t);
    CoveredLive(o.ttl, s.entries, t);
  }

  // --- and where two of one tag do run at once ---

  const NO_FAULTS: Faults := Faults(false, false, false, false, false, false, false)

  predicate Publishes(o: Options, j: Job) {
    ShouldPublish(j.result.summary, o.minimumRank, o.publishCleanScans) && !IsPointerKey(StateKey(j))
  }

  lemma OneStep(o: Options, s: State, a: Action)
    requires Enabled(s, a)
    ensures Execute(o, s, [a]) == Some(Step(o, s, a))
  {
    assert [a][..0] == [];
  }

  lemma {:induction false} ExecuteConcat(o: Options, s: State, a: seq<Action>, t: State, b: seq<Action>)
    requires Execute(o, s, a) == Some(t)
    ensures Execute(o, s, a + b) == Execute(o, t, b)
  {
    if b == [] {
      assert a + b == a;
    } else {
      assert (a + b)[..|a + b| - 1] == a + b[..|b| - 1];
      ExecuteConcat(o, s, a, t, b[..|b| - 1]);
    }
  }

  lemma TwoSteps(o: Options, s: State, a: Action, b: Action) returns (actions: seq<Action>)
    requires Enabled(s, a) && Enabled(Step(o, s, a), b)
    ensures Execute(o, s, actions) == Some(Step(o, Step(o, s, a), b))
  {
    OneStep(o, s, a);
    OneStep(o, Step(o, s, a), b);
    ExecuteConcat(o, s, [a], Step(o, s, a), [b]);
    actions := [a] + [b];
  }

  predicate FaultlessAt(s: State, i: nat, j: Job, phase: Phase) {
    i < |s.handlers| && s.handlers[i] == Handler(j, NO_FAULTS, phase)
  }

  /** With nothing stored, a handler has nothing to clean up. */
  lemma CleansNothing(o: Options, s: State, i: nat, j: Job) returns (actions: seq<Action>, t: State)
    requires FaultlessAt(s, i, j, Waiting) && s.entries == map[]
    ensures Execute(o, s, actions) == Some(t)
    ensures t == State(map[], s.handlers[i := Handler(j, NO_FAULTS, Cleaned)], s.clock)
  {
    var a := Act(i, s.clock);
    actions := TwoSteps(o, s, a, a);
    t := Step(o, Step(o, s, a), a);
    var h := Handler(j, NO_FAULTS, Cleaned);
    assert s.handlers[i := Handler(j, NO_FAULTS, Fetched(""))][i := h] == s.handlers[i := h];
  }

  /** The second takes its timestamp first and sets the pointer last. */
  lemma PointsOver(o: Options, s: State, i: nat, a: Job, j: nat, b: Job, late: Time)
    returns (actions: seq<Action>, t: State)
    requires FaultlessAt(s, i, a, Cleaned) && FaultlessAt(s, j, b, Cleaned) && i != j
    requires s.entries == map[] && PointerKey(a) == PointerKey(b) && s.clock <= late
    ensures Execute(o, s, actions) == Some(t) && t.clock == late
    ensures t.entries == map[PointerKey(b) := Persisted(Entry(StateKey(b), s.clock, s.clock, b.digest))]
    ensures FaultlessAt(t, i, a, Pointed(late))
  {
    var stamps := TwoSteps(o, s, Act(j, s.clock), Act(i, late));
    var s1 := Step(o, Step(o, s, Act(j, s.clock)), Act(i, late));
    var points := TwoSteps(o, s1, Act(i, late), Act(j, late));
    t := Step(o, Step(o, s1, Act(i, late)), Act(j, late));
    ExecuteConcat(o, s, stamps, s1, points);
    actions := stamps + points;
  }

  /** A handler that finds no entry of its own publishes and records one. */
  lemma RecordsOwn(o: Options, s: State, i: nat, j: Job, now: Time) returns (actions: seq<Action>, t: State)
    requires FaultlessAt(s, i, j, Pointed(now)) && StateKey(j) !in s.entries
    requires Publishes(o, j) && SinkAccepts(o, NO_FAULTS)
    ensures Execute(o, s, actions) == Some(t) && t.clock == s.clock
    ensures t.entries == SetEntry(s.entries, StateKey(j),
                                  Entry(Fingerprint(o.hash, j.result), now, now, FindingCount(j.result)))
  {
    var a := Act(i, s.clock);
    actions := TwoSteps(o, s, a, a);
    t := Step(o, Step(o, s, a), a);
    assert Step(o, s, a).handlers[i] == Handler(j, NO_FAULTS, LookedUp(now, ""));
    assert Decide(o, j, "", NO_FAULTS) == Published(true);
  }

  /** A live entry that the only pointer does not name, or names with an older time. */
  lemma LeftUncovered(o: Options, m: Entries, p: string, pointer: Entry, k: string, e: Entry, t: Time)
    requires m == map[p := pointer][k := e] && IsPointerKey(p) && !IsPointerKey(k)
    requires e.scanned == t && (pointer.fingerprint != k || pointer.scanned < t)
    ensures !LiveCovered(o.ttl, m, t)
  {
    assert k in LiveDigests(o.ttl, m, t);
    assert forall q :: q in m && IsPointerKey(q) ==> q == p;
    assert forall q :: !Covers(m, q, k);
  }

  lemma ThreeRuns(o: Options, s: State, a: seq<Action>, s1: State, b: seq<Action>, s2: State, c: seq<Action>, t: State)
    requires Execute(o, s, a) == Some(s1) && Execute(o, s1, b) == Some(s2) && Execute(o, s2, c) == Some(t)
    ensures Execute(o, s, a + b + c) == Some(t)
  {
    ExecuteConcat(o, s, a, s1, b);
    ExecuteConcat(o, s, a + b, s2, c);
  }

  /** Both clean up, then both set the pointer: it names b, with the earlier time, and a has yet to record. */
  lemma BothPoint(o: Options, s: State, i: nat, a: Job, j: nat, b: Job, late: Time)
    returns (actions: seq<Action>, t: State)
    requires FaultlessAt(s, i, a, Waiting) && FaultlessAt(s, j, b, Waiting) && i != j
    requires s.entries == map[] && PointerKey(a) == PointerKey(b) && s.clock <= late
    ensures Execute(o, s, actions) == Some(t) && t.clock == late
    ensures t.entries == map[PointerKey(b) := Persisted(Entry(StateKey(b), s.clock, s.clock, b.digest))]
    ensures FaultlessAt(t, i, a, Pointed(late))
  {
    var a1, s1 := CleansNothing(o, s, i, a);
    var a2, s2 := CleansNothing(o, s1, j, b);
    var a3;
    a3, t := PointsOver(o, s2, i, a, j, b, late);
    ThreeRuns(o, s, a1, s1, a2, s2, a3, t);
    actions := a1 + a2 + a3;
  }

  lemma TurnedAway(o: Options, s: State, i: nat, a: Job, j: nat, b: Job, late: Time)
    returns (actions: seq<Action>, t: State)
    requires FaultlessAt(s, i, a, Waiting) && FaultlessAt(s, j, b, Waiting) && i != j && s.entries == map[]
    requires Publishes(o, a) && Publishes(o, b) && SinkAccepts(o, NO_FAULTS) && PointerKey(a) == PointerKey(b)
    requires SECOND <= s.clock < late && late % SECOND == 0
    ensures Execute(o, s, actions) == Some(t)
    ensures !LiveCovered(o.ttl, t.entries, t.clock)
  {
    var before, mid := BothPoint(o, s, i, a, j, b, late);
    var after;
    after, t := RecordsOwn(o, mid, i, a, late);
    ExecuteConcat(o, s, before, mid, after);
    actions := before + after;
    StoredTimeBounds(s.clock, s.clock);
    StoredTimeBounds(late, late);
    var e := Persisted(Entry(Fingerprint(o.hash, a.result), late, late, FindingCount(a.result)));
    LeftUncovered(o, t.entries, PointerKey(b), mid.entries[PointerKey(b)], StateKey(a), e, late);
  }

  /** Two publishing handlers of one tag, of the same digest or not, can always leave an orphan. */
  lemma SharedPointerOrphans(o: Options, ws: seq<Work>, i: nat, j: nat) returns (actions: seq<Action>, s: State)
    requires i < |ws| && j < |ws| && i != j
    requires ws[i].faults == NO_FAULTS && ws[j].faults == NO_FAULTS && SinkAccepts(o, NO_FAULTS)
    requires Publishes(o, ws[i].job) && Publishes(o, ws[j].job)
    requires PointerKey(ws[i].job) == PointerKey(ws[j].job)
    ensures Execute(o, Initial(ws, SAMPLE_TIME), actions) == Some(s)
    ensures !LiveCovered(o.ttl, s.entries, s.clock)
  {
    actions, s := TurnedAway(o, Initial(ws, SAMPLE_TIME), i, ws[i].job, j, ws[j].job, SAMPLE_TIME + SECOND);
  }

  ghost predicate NeverOrphans(o: Options, ws: seq<Work>) {
    forall start: Time, actions, s :: SECOND <= start && Execute(o, Initial(ws, start), actions) == Some(s) ==>
      LiveCovered(o.ttl, s.entries, s.clock)
  }

  predicate DistinctPointers(ws: seq<Work>) {
    forall i, j :: 0 <= i < j < |ws| ==> PointerKey(ws[i].job) != PointerKey(ws[j].job)
  }

  lemma {:induction false} JobsStay(o: Options, s: State, actions: seq<Action>, t: State)
    requires Execute(o, s, actions) == Some(t)
    ensures |t.handlers| == |s.handlers| && forall i :: 0 <= i < |s.handlers| ==> t.handlers[i].job == s.handlers[i].job
  {
    if actions == [] {
    } else {
      JobsStay(o, s, actions[..|actions| - 1], Execute(o, s, actions[..|actions| - 1]).value);
    }
  }

  /**
   Of publishing handlers without faults, every interleaving keeps live entries covered exactly
   when no two of them are of one tag and scanner.
   */
  lemma NeverOrphansExactly(o: Options, ws: seq<Work>)
    requires SinkAccepts(o, NO_FAULTS) && forall w :: w in ws ==> Publishes(o, w.job) && w.faults == NO_FAULTS
    ensures NeverOrphans(o, ws) <==> DistinctPointers(ws)
  {
    if DistinctPointers(ws) {
      forall start: Time, actions, s | SECOND <= start && Execute(o, Initial(ws, start), actions) == Some(s)
        ensures LiveCovered(o.ttl, s.entries, s.clock)
      {
        forall n, t | 0 <= n < |actions| && Execute(o, Initial(ws, start), actions[..n]) == Some(t)
          ensures Exclusive(t, actions[n])
        {
          JobsStay(o, Initial(ws, start), actions[..n], t);
        }
        NoConcurrentOrphans(o, ws, start, actions, s, s.clock);
      }
    } else {
      var i, j :| 0 <= i < j < |ws| && PointerKey(ws[i].job) == PointerKey(ws[j].job);
      assert ws[i] in ws && ws[j] in ws;
      var actions, s := SharedPointerOrphans(o, ws, i, j);
    }
  }
}
