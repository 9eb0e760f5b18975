/** The handler step by step: store requests in order, metrics counted, one lock held throughout. */
module DedupeHandler {
  import opened Wrappers
  import opened Clock
  import opened EntryCodec
  import opened ConfigMapApi
  import opened Fingerprints
  import opened Publishing
  import opened DedupeState
  import opened DedupeRuns

  class StateStore {
    var entries: Entries
    const ttl: int

    constructor (ttl: int)
      ensures entries == map[] && this.ttl == ttl
    {
      entries, this.ttl := map[], ttl;
    }

    method GetEntry(key: string, now: Time, fails: bool) returns (ok: bool, entry: Option<Entry>)
      modifies this
      ensures ok == !fails
      ensures fails ==> entries == old(entries) && entry == None
      ensures !fails ==> (entries, entry) == DedupeState.GetEntry(ttl, old(entries), key, now)
    {
      if fails {
        return false, None;
      }
      if key !in entries {
        return true, None;
      }
      if Expired(ttl, entries[key], now) {
        entries := entries - {key};
        return true, None;
      }
      return true, Some(entries[key]);
    }

    method SetEntry(key: string, entry: Entry, fails: bool) returns (ok: bool)
      modifies this
      ensures ok == !fails
      ensures entries == if fails then old(entries) else DedupeState.SetEntry(old(entries), key, entry)
    {
      if fails {
        return false;
      }
      entries := entries[key := Persisted(entry)];
      return true;
    }

    method DeleteEntry(key: string, fails: bool) returns (ok: bool)
      modifies this
      ensures ok == !fails
      ensures entries == if fails then old(entries) else old(entries) - {key}
    {
      if fails {
        return false;
      }
      entries := entries - {key};
      return true;
    }
  }

  datatype Counts = Counts(dedupeHits: int, belowThreshold: int, published: int, publishErrors: int,
                           updates: int, updateErrors: int, lookupHits: int, lookupMisses: int, lookupErrors: int)

  const NOTHING_COUNTED: Counts := Counts(0, 0, 0, 0, 0, 0, 0, 0, 0)

  class Metrics {
    var counts: Counts

    constructor ()
      ensures counts == NOTHING_COUNTED
    {
      counts := NOTHING_COUNTED;
    }
  }

  /** Sinks that were tried and did not accept. */
  function SinkErrors(o: Options, f: Faults): int {
    (if o.toKomodor && (!o.publisherConfigured || f.komodor) then 1 else 0) + (if o.toEvents && f.events then 1 else 0)
  }

  /** Enabled sinks either accept or are counted as errors. */
  lemma SinksAddUp(o: Options, f: Faults)
    ensures |EnabledSinks(o)| == |AcceptingSinks(o, f)| + SinkErrors(o, f)
    ensures |AcceptingSinks(o, f)| == (if o.toKomodor && o.publisherConfigured && !f.komodor then 1 else 0)
                                    + (if o.toEvents && !f.events then 1 else 0)
  {
    SinksListed(EnabledSinks(o));
    SinksListed(AcceptingSinks(o, f));
  }

  lemma SinksListed(s: set<Sink>)
    ensures |s| == (if Komodor in s then 1 else 0) + if KubernetesEvents in s then 1 else 0
  {
    var k, e := if Komodor in s then {Komodor} else {}, if KubernetesEvents in s then {KubernetesEvents} else {};
    forall x ensures x in s <==> x in k + e {
      match x {
        case Komodor =>
        case KubernetesEvents =>
      }
    }
    assert s == k + e;
  }

  /** Each lookup of the last fingerprint is counted as a hit, a miss or an error. */
  function LookedUp(c: Counts, o: Options, m: Entries, j: Job, at: Time, f: Faults): Counts {
    if f.getState then c.(lookupErrors := c.lookupErrors + 1)
    else if DedupeState.GetEntry(o.ttl, m, StateKey(j), at).1 == None then c.(lookupMisses := c.lookupMisses + 1)
    else c.(lookupHits := c.lookupHits + 1)
  }

  function SinksTried(c: Counts, o: Options, f: Faults): Counts {
    c.(publishErrors := c.publishErrors + SinkErrors(o, f),
       published := c.published + if SinkAccepts(o, f) then 1 else 0)
  }

  function Updated(c: Counts, stored: bool): Counts {
    if stored then c.(updates := c.updates + 1) else c.(updateErrors := c.updateErrors + 1)
  }

  /** Each handled result is counted under exactly one ending; published rises by one however many sinks accept. */
  function Counted(c: Counts, o: Options, f: Faults, outcome: Outcome): Counts {
    match outcome
    case Deduplicated => c.(dedupeHits := c.dedupeHits + 1)
    case BelowThreshold => c.(belowThreshold := c.belowThreshold + 1)
    case AllSinksFailed => SinksTried(c, o, f)
    case Published(stored) => Updated(SinksTried(c, o, f), stored)
  }

  // --- what the counters add up to over a run ---

  /** The counters after one more handled result. */
  function CountedAfter(c: Counts, o: Options, m: Entries, r: Request): Counts {
    Counted(LookedUp(c, o, AtLookup(o, m, r), r.job, r.t.lookup, r.faults), o, r.faults,
            Handle(o, m, r.job, r.t, r.faults).1)
  }

  function CountsAfter(o: Options, rs: seq<Request>): Counts {
    if rs == [] then NOTHING_COUNTED
    else CountedAfter(CountsAfter(o, rs[..|rs| - 1]), o, EntriesAfter(o, rs[..|rs| - 1]), rs[|rs| - 1])
  }

  /** Results of the run that ended so. */
  function Endings(o: Options, rs: seq<Request>, outcome: Outcome): nat {
    if rs == [] then 0
    else
      var rest, r := rs[..|rs| - 1], rs[|rs| - 1];
      Endings(o, rest, outcome) + if Handle(o, EntriesAfter(o, rest), r.job, r.t, r.faults).1 == outcome then 1 else 0
  }

  /** Enabled sinks that rejected the result; none before they are tried. */
  function Rejecting(o: Options, f: Faults, outcome: Outcome): set<Sink> {
    set s | s in EnabledSinks(o) && Rejects(o, f, s) && (outcome.Published? || outcome.AllSinksFailed?)
  }

  /** Rejections over the run. */
  function Rejections(o: Options, rs: seq<Request>): nat {
    if rs == [] then 0
    else
      var rest, r := rs[..|rs| - 1], rs[|rs| - 1];
      Rejections(o, rest) + |Rejecting(o, r.faults, Handle(o, EntriesAfter(o, rest), r.job, r.t, r.faults).1)|
  }

  lemma RejectingAddUp(o: Options, f: Faults, outcome: Outcome)
    ensures |Rejecting(o, f, outcome)| == if outcome.Published? || outcome.AllSinksFailed? then SinkErrors(o, f) else 0
  {
    SinksListed(Rejecting(o, f, outcome));
  }

  /** Results of the run whose lookup failed, or found an entry. */
  function FailedLookups(rs: seq<Request>): nat {
    if rs == [] then 0 else FailedLookups(rs[..|rs| - 1]) + if rs[|rs| - 1].faults.getState then 1 else 0
  }

  function FoundLookups(o: Options, rs: seq<Request>): nat {
    if rs == [] then 0
    else FoundLookups(o, rs[..|rs| - 1]) + if Finds(o, EntriesAfter(o, rs[..|rs| - 1]), rs[|rs| - 1]) then 1 else 0
  }

  function B(b: bool): nat { if b then 1 else 0 }

  /** What one result adds to the counters. */
  predicate Adds(c: Counts, d: Counts, outcome: Outcome, rejected: int, found: bool, failed: bool) {
    && d.dedupeHits == c.dedupeHits + B(outcome == Deduplicated)
    && d.belowThreshold == c.belowThreshold + B(outcome == BelowThreshold)
    && d.published == c.published + B(outcome.Published?)
    && d.publishErrors == c.publishErrors + rejected
    && d.updates == c.updates + B(outcome == Published(true))
    && d.updateErrors == c.updateErrors + B(outcome == Published(false))
    && d.lookupErrors == c.lookupErrors + B(failed)
    && d.lookupHits == c.lookupHits + B(found)
    && d.lookupMisses == c.lookupMisses + B(!found && !failed)
  }

  lemma EndingAdds(c: Counts, o: Options, f: Faults, outcome: Outcome)
    requires outcome.Published? ==> SinkAccepts(o, f)
    requires outcome.AllSinksFailed? ==> !SinkAccepts(o, f)
    ensures Adds(c, Counted(c, o, f, outcome).(lookupMisses := c.lookupMisses + 1), outcome,
                 |Rejecting(o, f, outcome)|, false, false)
  {
    RejectingAddUp(o, f, outcome);
  }

  lemma HandledAdds(c: Counts, o: Options, m: Entries, r: Request)
    ensures var outcome := Handle(o, m, r.job, r.t, r.faults).1;
            Adds(c, CountedAfter(c, o, m, r), outcome, |Rejecting(o, r.faults, outcome)|, Finds(o, m, r),
                 r.faults.getState)
  {
    var at := AtLookup(o, m, r);
    EndingAdds(LookedUp(c, o, at, r.job, r.t.lookup, r.faults), o, r.faults, Handle(o, m, r.job, r.t, r.faults).1);
  }

  /** Over every run each counter is the number of results that ended its way. */
  lemma {:induction false} CountersAddUp(o: Options, rs: seq<Request>)
    ensures var c := CountsAfter(o, rs);
            && c.dedupeHits == Endings(o, rs, Deduplicated) && c.belowThreshold == Endings(o, rs, BelowThreshold)
            && c.updates == Endings(o, rs, Published(true)) && c.updateErrors == Endings(o, rs, Published(false))
            && c.published == c.updates + c.updateErrors && c.publishErrors == Rejections(o, rs)
            && c.lookupErrors == FailedLookups(rs) && c.lookupHits == FoundLookups(o, rs)
            && c.lookupHits + c.lookupMisses + c.lookupErrors == |rs|
  {
    if rs == [] {
    } else {
      var rest, r := rs[..|rs| - 1], rs[|rs| - 1];
      CountersAddUp(o, rest);
      HandledAdds(CountsAfter(o, rest), o, EntriesAfter(o, rest), r);
    }
  }

  method CleanupPreviousDigestState(store: StateStore, o: Options, j: Job, at: Time, f: Faults)
    requires store.ttl == o.ttl
    modifies store
    ensures store.entries == Cleanup(o, old(store.entries), j, at, f)
  {
    var ok, pointer := store.GetEntry(PointerKey(j), at, f.getPointer);
    if !ok {
      return;
    }
    if pointer == None || pointer.value.fingerprint == "" || pointer.value.fingerprint == StateKey(j) {
      return;
    }
    var _ := store.DeleteEntry(pointer.value.fingerprint, f.deletePrevious);
  }

  method LoadLastFingerprint(store: StateStore, metrics: Metrics, o: Options, j: Job, at: Time, f: Faults)
    returns (last: string)
    requires store.ttl == o.ttl
    modifies store, metrics
    ensures (store.entries, last) == LastFingerprint(o, old(store.entries), j, at, f)
    ensures metrics.counts == LookedUp(old(metrics.counts), o, old(store.entries), j, at, f)
    ensures last != "" ==> metrics.counts.lookupHits == old(metrics.counts.lookupHits) + 1
  {
    var c := metrics.counts;
    var ok, entry := store.GetEntry(StateKey(j), at, f.getState);
    if !ok {
      metrics.counts := c.(lookupErrors := c.lookupErrors + 1);
      return "";
    }
    if entry == None {
      metrics.counts := c.(lookupMisses := c.lookupMisses + 1);
      return "";
    }
    metrics.counts := c.(lookupHits := c.lookupHits + 1);
    return entry.value.fingerprint;
  }

  /** Tries each enabled sink; how many accepted, and how many errors to count. */
  method PublishToSinks(o: Options, f: Faults) returns (publishedCount: int, errors: int)
    ensures publishedCount > 0 <==> SinkAccepts(o, f)
    ensures publishedCount == |AcceptingSinks(o, f)| && publishedCount + errors == |EnabledSinks(o)|
    ensures errors == SinkErrors(o, f)
  {
    SinksAddUp(o, f);
    publishedCount, errors := 0, 0;
    if o.toKomodor {
      if !o.publisherConfigured {
        errors := errors + 1;
      } else if f.komodor {
        errors := errors + 1;
      } else {
        publishedCount := publishedCount + 1;
      }
    }
    if o.toEvents {
      if f.events {
        errors := errors + 1;
      } else {
        publishedCount := publishedCount + 1;
      }
    }
  }

  /** After a publish: record the fingerprint, and count the update. */
  method RecordPublished(store: StateStore, metrics: Metrics, o: Options, j: Job, now: Time, fails: bool)
    returns (stored: bool)
    modifies store, metrics
    ensures stored == !fails
    ensures store.entries == Record(o, old(store.entries), j, now, Published(stored))
    ensures metrics.counts == Updated(old(metrics.counts), stored)
  {
    var c := metrics.counts;
    stored := store.SetEntry(StateKey(j), Entry(Fingerprint(o.hash, j.result), now, now, FindingCount(j.result)),
        fails);
    metrics.counts := if stored then c.(updates := c.updates + 1) else c.(updateErrors := c.updateErrors + 1);
  }

  /** The sinks in turn: whether one accepted, with the refusals counted. */
  method PublishCounted(metrics: Metrics, o: Options, f: Faults) returns (accepted: bool)
    modifies metrics
    ensures accepted == SinkAccepts(o, f)
    ensures metrics.counts == SinksTried(old(metrics.counts), o, f)
  {
    var c := metrics.counts;
    var publishedCount, errors := PublishToSinks(o, f);
    c := c.(publishErrors := c.publishErrors + errors);
    if publishedCount == 0 {
      metrics.counts := c;
      return false;
    }
    metrics.counts := c.(published := c.published + 1);
    return true;
  }

  method PublishAndRecord(store: StateStore, metrics: Metrics, o: Options, j: Job, now: Time, f: Faults)
    returns (outcome: Outcome)
    modifies store, metrics
    ensures outcome == if SinkAccepts(o, f) then Published(!f.setState) else AllSinksFailed
    ensures store.entries == Record(o, old(store.entries), j, now, outcome)
    ensures metrics.counts == Counted(old(metrics.counts), o, f, outcome)
  {
    var accepted := PublishCounted(metrics, o, f);
    if !accepted {
      return AllSinksFailed;
    }
    var stored := RecordPublished(store, metrics, o, j, now, f.setState);
    return Published(stored);
  }

  /** The part under the lock that follows the lookups. */
  method Conclude(store: StateStore, metrics: Metrics, o: Options, j: Job, last: string, now: Time, f: Faults)
    returns (outcome: Outcome)
    modifies store, metrics
    ensures outcome == Decide(o, j, last, f)
    ensures store.entries == Record(o, old(store.entries), j, now, outcome)
    ensures metrics.counts == Counted(old(metrics.counts), o, f, outcome)
  {
    var c := metrics.counts;
    if !EvaluatePublish(o.hash, j.result, last, o.onlyOnChange) {
      metrics.counts := c.(dedupeHits := c.dedupeHits + 1);
      return Deduplicated;
    }
    if !ShouldPublish(j.result.summary, o.minimumRank, o.publishCleanScans) {
      metrics.counts := c.(belowThreshold := c.belowThreshold + 1);
      return BelowThreshold;
    }
    outcome := PublishAndRecord(store, metrics, o, j, now, f);
  }

  method HandleScanResultStateAndPublish(store: StateStore, metrics: Metrics, o: Options, j: Job, t: Readings,
                                         f: Faults)
    returns (outcome: Outcome)
    requires store.ttl == o.ttl
    modifies store, metrics
    ensures (store.entries, outcome) == Handle(o, old(store.entries), j, t, f)
    ensures metrics.counts == CountedAfter(old(metrics.counts), o, old(store.entries), Request(j, t, f))
  {
    CleanupPreviousDigestState(store, o, j, t.cleanup, f);
    var _ := store.SetEntry(PointerKey(j), Entry(StateKey(j), t.now, t.now, j.digest), f.setPointer);
    ghost var pointed := store.entries;
    assert pointed == Point(Cleanup(o, old(store.entries), j, t.cleanup, f), j, t.now, f);
    var last := LoadLastFingerprint(store, metrics, o, j, t.lookup, f);
    assert (store.entries, last) == LastFingerprint(o, pointed, j, t.lookup, f);
    outcome := Conclude(store, metrics, o, j, last, t.now, f);
  }
}
