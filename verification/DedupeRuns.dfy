/** Whole runs of serialised handlers, and the handler as the reconciler executes it. */
module DedupeRuns {
  import opened Wrappers
  import opened Clock
  import opened EntryCodec
  import opened ConfigMapApi
  import opened Fingerprints
  import opened Publishing
  import opened Scanners
  import opened DedupeState
  import Text

  datatype Request = Request(job: Job, t: Readings, faults: Faults)

  datatype Handled = Handled(key: string, fingerprint: string, outcome: Outcome)

  /** The store after a run that began with an empty one. */
  function EntriesAfter(o: Options, rs: seq<Request>): Entries {
    if rs == [] then map[]
    else
      var r := rs[|rs| - 1];
      Handle(o, EntriesAfter(o, rs[..|rs| - 1]), r.job, r.t, r.faults).0
  }

  function HandledAs(o: Options, m: Entries, r: Request): Handled {
    Handled(StateKey(r.job), Fingerprint(o.hash, r.job.result), Handle(o, m, r.job, r.t, r.faults).1)
  }

  function HandledIn(o: Options, rs: seq<Request>): (log: seq<Handled>)
    ensures |log| == |rs|
  {
    if rs == [] then []
    else
      var r := rs[|rs| - 1];
      HandledIn(o, rs[..|rs| - 1]) + [HandledAs(o, EntriesAfter(o, rs[..|rs| - 1]), r)]
  }

  function LastReading(rs: seq<Request>, start: Time): Time {
    if rs == [] then start else rs[|rs| - 1].t.lookup
  }

  ghost predicate Ordered(rs: seq<Request>, start: Time) {
    rs == [] ||
    (Ordered(rs[..|rs| - 1], start) && Timely(LastReading(rs[..|rs| - 1], start), rs[|rs| - 1].t))
  }

  // --- no live orphans, ever ---

  lemma {:induction false} RunKeeps(o: Options, rs: seq<Request>, start: Time)
    requires SECOND <= start && Ordered(rs, start)
    requires forall r :: r in rs ==> !IsPointerKey(StateKey(r.job)) && HarmlessFaults(o, r.faults)
    ensures NoOrphans(o.ttl, EntriesAfter(o, rs), LastReading(rs, start))
    ensures Sane(EntriesAfter(o, rs), LastReading(rs, start)) && SECOND <= LastReading(rs, start)
  {
    if rs == [] {
    } else {
      var rest, r := rs[..|rs| - 1], rs[|rs| - 1];
      RunKeeps(o, rest, start);
      HandleKeeps(o, EntriesAfter(o, rest), r.job, LastReading(rest, start), r.t, r.faults);
    }
  }

  function LiveDigests(ttl: int, m: Entries, t: Time): set<string> {
    set k | k in m && !IsPointerKey(k) && Live(ttl, m, k, t)
  }

  function LivePointers(ttl: int, m: Entries, t: Time): set<string> {
    set q | q in m && IsPointerKey(q) && Live(ttl, m, q, t)
  }

  /** If every k in a is named by some q in b, b is at least as large. */
  lemma {:induction false} NamedIsFewer(m: Entries, a: set<string>, b: set<string>)
    requires forall k :: k in a ==> exists q :: q in b && q in m && m[q].fingerprint == k
    ensures |a| <= |b|
  {
    if a == {} {
    } else {
      var k :| k in a;
      var q :| q in b && q in m && m[q].fingerprint == k;
      forall k2 | k2 in a - {k} ensures exists q2 :: q2 in b - {q} && q2 in m && m[q2].fingerprint == k2 {
        var q2 :| q2 in b && q2 in m && m[q2].fingerprint == k2;
        assert q2 != q;
      }
      NamedIsFewer(m, a - {k}, b - {q});
    }
  }

  /**
   Each live digest entry has a live pointer at least as recent, so live digest entries never
   outnumber live pointers, through expiry and through tags that share a digest.
   */
  ghost predicate LiveCovered(ttl: int, m: Entries, t: Time) {
    && (forall k :: k in LiveDigests(ttl, m, t) ==> exists q :: q in LivePointers(ttl, m, t) && Covers(m, q, k))
    && |LiveDigests(ttl, m, t)| <= |LivePointers(ttl, m, t)|
  }

  lemma CoveredLive(ttl: int, m: Entries, t: Time)
    requires NoOrphans(ttl, m, t) && Sane(m, t)
    ensures LiveCovered(ttl, m, t)
  {
    forall k | k in LiveDigests(ttl, m, t) ensures exists q :: q in LivePointers(ttl, m, t) && Covers(m, q, k) {
      var q :| Covers(m, q, k);
      CoverIsLive(ttl, m, q, k, t);
      assert q in LivePointers(ttl, m, t);
    }
    forall k | k in LiveDigests(ttl, m, t)
      ensures exists q :: q in LivePointers(ttl, m, t) && q in m && m[q].fingerprint == k
    {
      var q :| q in LivePointers(ttl, m, t) && Covers(m, q, k);
    }
    NamedIsFewer(m, LiveDigests(ttl, m, t), LivePointers(ttl, m, t));
  }

  /** At every instant after any run of serialised handlers whose faults are harmless. */
  lemma NoLiveOrphans(o: Options, rs: seq<Request>, start: Time, t: Time)
    requires SECOND <= start && Ordered(rs, start) && LastReading(rs, start) <= t
    requires forall r :: r in rs ==> !IsPointerKey(StateKey(r.job)) && HarmlessFaults(o, r.faults)
    ensures LiveCovered(o.ttl, EntriesAfter(o, rs), t)
  {
    var m := EntriesAfter(o, rs);
    RunKeeps(o, rs, start);
    NoOrphansLater(o.ttl, m, LastReading(rs, start), t);
    CoveredLive(o.ttl, m, t);
  }

  // --- what the entries say about what was published ---

  /** The fingerprint last published and stored under a key. */
  function LastStored(log: seq<Handled>, key: string): Option<string> {
    if log == [] then None
    else
      var h := log[|log| - 1];
      if h.key == key && h.outcome == Published(true) then Some(h.fingerprint) else LastStored(log[..|log| - 1], key)
  }

  /** A digest entry present in `after` was there before, unchanged. */
  predicate Inherited(before: Entries, after: Entries, k: string) {
    k in after ==> k in before && after[k] == before[k]
  }

  lemma PhasesInherit(o: Options, m: Entries, j: Job, t: Readings, f: Faults, k: string)
    requires !IsPointerKey(k)
    ensures Inherited(m, Cleanup(o, m, j, t.cleanup, f), k)
    ensures Inherited(m, Point(m, j, t.now, f), k)
    ensures Inherited(m, LastFingerprint(o, m, j, t.lookup, f).0, k)
  {
    assert PointerKey(j) != k;
  }

  lemma HandleTouchesOwnEntry(o: Options, m: Entries, j: Job, t: Readings, f: Faults, k: string)
    requires !IsPointerKey(k) && k in Handle(o, m, j, t, f).0
    ensures var (after, outcome) := Handle(o, m, j, t, f);
            if k == StateKey(j) && outcome == Published(true)
            then after[k].fingerprint == Fingerprint(o.hash, j.result)
            else k in m && after[k] == m[k]
  {
    var cleaned := Cleanup(o, m, j, t.cleanup, f);
    var pointed := Point(cleaned, j, t.now, f);
    PhasesInherit(o, m, j, t, f, k);
    PhasesInherit(o, cleaned, j, t, f, k);
    PhasesInherit(o, pointed, j, t, f, k);
  }

  /** The entry a handler records for a published result. */
  function Recorded(o: Options, r: Request): Entry {
    Persisted(Entry(Fingerprint(o.hash, r.job.result), r.t.now, r.t.now, FindingCount(r.job.result)))
  }

  lemma HandleWritesOwnEntry(o: Options, m: Entries, r: Request, k: string)
    requires !IsPointerKey(k) && k in Handle(o, m, r.job, r.t, r.faults).0
    requires k == StateKey(r.job) && Handle(o, m, r.job, r.t, r.faults).1 == Published(true)
    ensures Handle(o, m, r.job, r.t, r.faults).0[k] == Recorded(o, r)
  {
  }

  /** The latest request of the run whose handler published a result of this key and stored its entry. */
  function LastStoring(o: Options, rs: seq<Request>, k: string): Option<Request> {
    if rs == [] then None
    else
      var rest, r := rs[..|rs| - 1], rs[|rs| - 1];
      var outcome := Handle(o, EntriesAfter(o, rest), r.job, r.t, r.faults).1;
      if StateKey(r.job) == k && outcome == Published(true) then Some(r) else LastStoring(o, rest, k)
  }

  /**
   Every digest entry present is what that handler recorded: its result's fingerprint, its own
   timestamp, and the number of findings.
   */
  lemma {:induction false} EntriesHold(o: Options, rs: seq<Request>, k: string)
    requires !IsPointerKey(k) && k in EntriesAfter(o, rs)
    ensures LastStoring(o, rs, k).Some? && EntriesAfter(o, rs)[k] == Recorded(o, LastStoring(o, rs, k).value)
  {
    var rest, r := rs[..|rs| - 1], rs[|rs| - 1];
    HandleTouchesOwnEntry(o, EntriesAfter(o, rest), r.job, r.t, r.faults, k);
    if k == StateKey(r.job) && Handle(o, EntriesAfter(o, rest), r.job, r.t, r.faults).1 == Published(true) {
      HandleWritesOwnEntry(o, EntriesAfter(o, rest), r, k);
    } else {
      EntriesHold(o, rest, k);
    }
  }

  /** The number of findings is what the text before " findings" reads as. */
  lemma FindingCountReads(r: ScanResult)
    requires Text.MIN_INT64 <= Total(r.summary) <= Text.MAX_INT64
    ensures var t := FindingCount(r);
            |t| > 9 && t[|t| - 9..] == " findings" && Text.ParseInt64(t[..|t| - 9]) == Some(Total(r.summary))
  {
    Text.ParsePrintInt(Total(r.summary));
    var t := FindingCount(r);
    assert t[..|t| - 9] == Text.PrintInt(Total(r.summary));
  }

  /** The pointer a handler writes. */
  function Pointing(r: Request): Entry {
    Persisted(Entry(StateKey(r.job), r.t.now, r.t.now, r.job.digest))
  }

  lemma PhasesInheritPointers(o: Options, m: Entries, r: Request, outcome: Outcome, q: string)
    requires IsPointerKey(q) && !IsPointerKey(StateKey(r.job))
    ensures Inherited(m, Cleanup(o, m, r.job, r.t.cleanup, r.faults), q)
    ensures var pointed := Point(m, r.job, r.t.now, r.faults);
            if q == PointerKey(r.job) && !r.faults.setPointer then q in pointed && pointed[q] == Pointing(r)
            else Inherited(m, pointed, q)
    ensures Inherited(m, LastFingerprint(o, m, r.job, r.t.lookup, r.faults).0, q)
    ensures Inherited(m, Record(o, m, r.job, r.t.now, outcome), q)
  {
  }

  lemma HandleWritesOwnPointer(o: Options, m: Entries, r: Request, q: string)
    requires IsPointerKey(q) && !IsPointerKey(StateKey(r.job)) && q in Handle(o, m, r.job, r.t, r.faults).0
    ensures var after := Handle(o, m, r.job, r.t, r.faults).0;
            if q == PointerKey(r.job) && !r.faults.setPointer then after[q] == Pointing(r)
            else q in m && after[q] == m[q]
  {
    var cleaned := Cleanup(o, m, r.job, r.t.cleanup, r.faults);
    var pointed := Point(cleaned, r.job, r.t.now, r.faults);
    var (looked, last) := LastFingerprint(o, pointed, r.job, r.t.lookup, r.faults);
    var outcome := Decide(o, r.job, last, r.faults);
    PhasesInheritPointers(o, m, r, outcome, q);
    PhasesInheritPointers(o, cleaned, r, outcome, q);
    PhasesInheritPointers(o, pointed, r, outcome, q);
    PhasesInheritPointers(o, looked, r, outcome, q);
  }

  /** The latest request of the run whose handler set this pointer. */
  function LastPointing(rs: seq<Request>, q: string): Option<Request> {
    if rs == [] then None
    else
      var r := rs[|rs| - 1];
      if PointerKey(r.job) == q && !r.faults.setPointer then Some(r) else LastPointing(rs[..|rs| - 1], q)
  }

  /** Every pointer present is what that handler wrote: its digest's key, its timestamp, its digest. */
  lemma {:induction false} PointersHold(o: Options, rs: seq<Request>, q: string)
    requires IsPointerKey(q) && q in EntriesAfter(o, rs)
    requires forall r :: r in rs ==> !IsPointerKey(StateKey(r.job))
    ensures LastPointing(rs, q).Some? && EntriesAfter(o, rs)[q] == Pointing(LastPointing(rs, q).value)
  {
    var rest, r := rs[..|rs| - 1], rs[|rs| - 1];
    assert r in rs;
    HandleWritesOwnPointer(o, EntriesAfter(o, rest), r, q);
    if !(q == PointerKey(r.job) && !r.faults.setPointer) {
      PointersHold(o, rest, q);
    }
  }

  /**
   What onlyOnChange is for: after a result was published and stored, the same result for the same
   tag is deduplicated until ttl after the second it was handled in, whatever else the store holds.
   */
  lemma RepeatDeduplicated(o: Options, m: Entries, first: Request, again: Request)
    requires o.onlyOnChange && !IsPointerKey(StateKey(first.job)) && again.job == first.job
    requires Handle(o, m, first.job, first.t, first.faults).1 == Published(true) && !first.faults.setPointer
    requires !again.faults.getState && SECOND <= first.t.now && again.t.cleanup <= again.t.lookup
    requires o.ttl <= 0 || again.t.lookup <= first.t.now / SECOND * SECOND + o.ttl
    ensures var after := Handle(o, m, first.job, first.t, first.faults).0;
            Handle(o, after, again.job, again.t, again.faults).1 == Deduplicated
  {
    var j, after := first.job, Handle(o, m, first.job, first.t, first.faults).0;
    StoredTimeBounds(first.t.now, first.t.now);
    assert after[StateKey(j)] == Recorded(o, first);
    assert after[PointerKey(j)].fingerprint == StateKey(j);
    var cleaned := Cleanup(o, after, j, again.t.cleanup, again.faults);
    assert StateKey(j) in cleaned && cleaned[StateKey(j)] == Recorded(o, first);
    HandleDecides(o, after, again);
  }

  /** Every digest entry holds the fingerprint of its key's latest result that was published and stored. */
  lemma {:induction false} EntriesAgree(o: Options, rs: seq<Request>, k: string)
    requires !IsPointerKey(k) && k in EntriesAfter(o, rs)
    ensures LastStored(HandledIn(o, rs), k) == Some(EntriesAfter(o, rs)[k].fingerprint)
  {
    var rest, r := rs[..|rs| - 1], rs[|rs| - 1];
    HandleTouchesOwnEntry(o, EntriesAfter(o, rest), r.job, r.t, r.faults, k);
    var log := HandledIn(o, rs);
    assert log[..|log| - 1] == HandledIn(o, rest);
    if !(k == StateKey(r.job) && log[|log| - 1].outcome == Published(true)) {
      EntriesAgree(o, rest, k);
    }
  }

  /** The store as the handler of r finds it at its second lookup. */
  function AtLookup(o: Options, m: Entries, r: Request): Entries {
    Point(Cleanup(o, m, r.job, r.t.cleanup, r.faults), r.job, r.t.now, r.faults)
  }

  /** That lookup succeeds and returns an entry. */
  predicate Finds(o: Options, m: Entries, r: Request) {
    !r.faults.getState && Live(o.ttl, AtLookup(o, m, r), StateKey(r.job), r.t.lookup)
  }

  /** The fingerprint the handler compares with is the entry's, if it finds one. */
  lemma LookupReads(o: Options, m: Entries, r: Request)
    requires !IsPointerKey(StateKey(r.job))
    ensures LastFingerprint(o, AtLookup(o, m, r), r.job, r.t.lookup, r.faults).1
         == if Finds(o, m, r) && StateKey(r.job) in m then m[StateKey(r.job)].fingerprint else ""
    ensures Finds(o, m, r) ==> StateKey(r.job) in m
  {
    var cleaned := Cleanup(o, m, r.job, r.t.cleanup, r.faults);
    PhasesInherit(o, m, r.job, r.t, r.faults, StateKey(r.job));
    PhasesInherit(o, cleaned, r.job, r.t, r.faults, StateKey(r.job));
  }

  lemma HandleDecides(o: Options, m: Entries, r: Request)
    ensures Handle(o, m, r.job, r.t, r.faults).1
         == Decide(o, r.job, LastFingerprint(o, AtLookup(o, m, r), r.job, r.t.lookup, r.faults).1, r.faults)
  {
  }

  /**
   A result is deduplicated exactly when publishing only on change is on and the entry found
   holds its own fingerprint.
   */
  lemma DeduplicatedExactly(o: Options, rs: seq<Request>, r: Request)
    requires !IsPointerKey(StateKey(r.job))
    ensures Handle(o, EntriesAfter(o, rs), r.job, r.t, r.faults).1 == Deduplicated
            <==> o.onlyOnChange && Finds(o, EntriesAfter(o, rs), r)
                 && LastStored(HandledIn(o, rs), StateKey(r.job)) == Some(Fingerprint(o.hash, r.job.result))
  {
    var m, k := EntriesAfter(o, rs), StateKey(r.job);
    LookupReads(o, m, r);
    HandleDecides(o, m, r);
    if Finds(o, m, r) {
      EntriesAgree(o, rs, k);
    }
  }

  /** As the reconciler calls it, with onlyOnChange off, nothing is ever deduplicated. */
  lemma DedupeInert(o: Options, m: Entries, j: Job, t: Readings, f: Faults)
    requires !o.onlyOnChange
    ensures Handle(o, m, j, t, f).1 ==
            if !ShouldPublish(j.result.summary, o.minimumRank, o.publishCleanScans) then BelowThreshold
            else if SinkAccepts(o, f) then Published(!f.setState) else AllSinksFailed
  {
  }

  /**
   With onlyOnChange on, two publishes of a key between which its stored entry was kept and not
   rewritten have different fingerprints.
   */
  lemma ConsecutivePublishesDiffer(o: Options, rs: seq<Request>, i: nat, j: nat)
    requires o.onlyOnChange && i < j < |rs| && !IsPointerKey(StateKey(rs[j].job))
    requires var log := HandledIn(o, rs);
             && log[i].key == log[j].key
             && log[i].outcome == Published(true) && log[j].outcome.Published?
             && forall n :: i < n < j ==> !(log[n].key == log[j].key && log[n].outcome == Published(true))
    requires Finds(o, EntriesAfter(o, rs[..j]), rs[j])
    ensures HandledIn(o, rs)[i].fingerprint != HandledIn(o, rs)[j].fingerprint
  {
    var log := HandledIn(o, rs);
    HandledPrefix(o, rs, j);
    HandledAt(o, rs, j);
    LastStoredAt(log[..j], i, log[j].key);
    DeduplicatedExactly(o, rs[..j], rs[j]);
  }

  lemma HandledAt(o: Options, rs: seq<Request>, j: nat)
    requires j < |rs|
    ensures HandledIn(o, rs)[j] == HandledAs(o, EntriesAfter(o, rs[..j]), rs[j])
  {
    var prefix := rs[..j + 1];
    HandledPrefix(o, rs, j + 1);
    assert prefix[..j] == rs[..j];
    assert HandledIn(o, rs)[j] == HandledIn(o, rs)[..j + 1][j];
    assert HandledIn(o, prefix)[j] == HandledAs(o, EntriesAfter(o, prefix[..j]), prefix[j]);
  }

  lemma {:induction false} HandledPrefix(o: Options, rs: seq<Request>, n: nat)
    requires n <= |rs|
    ensures HandledIn(o, rs)[..n] == HandledIn(o, rs[..n])
  {
    if n == |rs| {
      assert rs[..n] == rs;
    } else {
      assert rs[..|rs| - 1][..n] == rs[..n];
      HandledPrefix(o, rs[..|rs| - 1], n);
    }
  }

  lemma {:induction false} LastStoredAt(log: seq<Handled>, i: nat, key: string)
    requires i < |log| && log[i].key == key && log[i].outcome == Published(true)
    requires forall n :: i < n < |log| ==> !(log[n].key == key && log[n].outcome == Published(true))
    ensures LastStored(log, key) == Some(log[i].fingerprint)
  {
    if i == |log| - 1 {
    } else {
      LastStoredAt(log[..|log| - 1], i, key);
    }
  }
}
