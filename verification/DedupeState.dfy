/**
 The dedupe state the reconciler keeps: per tag and scanner a "latest/..." pointer to the
 current digest's entry, and per digest and scanner an entry with the last published
 fingerprint.  Handlers of one workload are serialised by its state mutex.
 */
module DedupeState {
  import opened Wrappers
  import opened Clock
  import opened EntryCodec
  import opened ConfigMapApi
  import opened Scanners
  import opened Fingerprints
  import opened Publishing

  type Entries = map<string, Entry>

  datatype Job = Job(registry: string, repository: string, tag: string, digest: string, scanner: string,
                     result: ScanResult)

  /** Clock readings of one handler: at the first lookup, for the timestamps, at the second lookup. */
  datatype Readings = Readings(cleanup: Time, now: Time, lookup: Time)

  /** Which of the handler's requests fail. */
  datatype Faults = Faults(getPointer: bool, deletePrevious: bool, setPointer: bool, getState: bool, setState: bool,
                           komodor: bool, events: bool)

  datatype Options = Options(ttl: int, onlyOnChange: bool, toKomodor: bool, toEvents: bool, publisherConfigured: bool,
                             minimumRank: int, publishCleanScans: bool, hash: string -> string)

  datatype Outcome = Deduplicated | BelowThreshold | AllSinksFailed | Published(stored: bool)

  const POINTER_PREFIX: string := "latest/"

  predicate IsPointerKey(k: string) {
    POINTER_PREFIX <= k
  }

  function StateKey(j: Job): (k: string)
    ensures k != ""
  {
    j.digest + "/" + j.scanner
  }

  function PointerKey(j: Job): (k: string)
    ensures IsPointerKey(k)
  {
    POINTER_PREFIX + (j.registry + "/" + j.repository + ":" + j.tag + "/" + j.scanner)
  }

  /** A digest entry is shared by exactly the results of one digest and scanner. */
  lemma StateKeyExactly(a: Job, b: Job)
    requires '/' !in a.scanner && '/' !in b.scanner
    ensures StateKey(a) == StateKey(b) <==> a.digest == b.digest && a.scanner == b.scanner
  {
    if StateKey(a) == StateKey(b) {
      assert StateKey(a) == Text.Join(a.digest, '/', a.scanner) && StateKey(b) == Text.Join(b.digest, '/', b.scanner);
      Text.SplitUniqueLast(a.digest, b.digest, '/', a.scanner, b.scanner);
    }
  }

  function Tagged(j: Job): string {
    Text.Join(j.registry, '/', Text.Join(j.repository, ':', j.tag))
  }

  lemma PointerKeyParts(j: Job)
    ensures PointerKey(j) == POINTER_PREFIX + Text.Join(Tagged(j), '/', j.scanner)
  {
    assert j.registry + "/" + j.repository + ":" + j.tag + "/" + j.scanner == Text.Join(Tagged(j), '/', j.scanner);
  }

  /** What a parsed reference and a scanner's name have: no separator where it would be mistaken. */
  predicate PlainNames(j: Job) {
    '/' !in j.scanner && '/' !in j.registry && ':' !in j.repository
  }

  /** A pointer is shared by exactly the results of one registry, repository, tag and scanner. */
  lemma PointerKeyExactly(a: Job, b: Job)
    requires PlainNames(a) && PlainNames(b)
    ensures PointerKey(a) == PointerKey(b)
            <==> a.registry == b.registry && a.repository == b.repository && a.tag == b.tag && a.scanner == b.scanner
  {
    PointerKeyParts(a);
    PointerKeyParts(b);
    if PointerKey(a) == PointerKey(b) {
      assert PointerKey(a)[|POINTER_PREFIX|..] == Text.Join(Tagged(a), '/', a.scanner);
      assert PointerKey(b)[|POINTER_PREFIX|..] == Text.Join(Tagged(b), '/', b.scanner);
      Text.SplitUniqueLast(Tagged(a), Tagged(b), '/', a.scanner, b.scanner);
      var x, y := Text.Join(a.repository, ':', a.tag), Text.Join(b.repository, ':', b.tag);
      Text.SplitUnique(a.registry, b.registry, '/', x, y);
      Text.SplitUnique(a.repository, b.repository, ':', a.tag, b.tag);
    }
  }

  // --- the store the handler sees ---

  /** GetEntry: an expired entry is dropped and reads as absent. */
  function GetEntry(ttl: int, m: Entries, key: string, now: Time): (Entries, Option<Entry>) {
    if key !in m then (m, None)
    else if Expired(ttl, m[key], now) then (m - {key}, None)
    else (m, Some(m[key]))
  }

  function SetEntry(m: Entries, key: string, e: Entry): Entries {
    m[key := Persisted(e)]
  }

  /**
   An entry is read back, with its times cut to seconds, exactly until ttl after the second it was
   last scanned in; without a ttl, or with an instant before the first second of the epoch, for ever.
   */
  lemma LifetimeExactly(ttl: int, m: Entries, key: string, e: Entry, now: Time)
    ensures var read := GetEntry(ttl, SetEntry(m, key, e), key, now).1;
            && (read.Some? <==> ttl <= 0 || e.scanned < SECOND || now <= e.scanned / SECOND * SECOND + ttl)
            && (read.Some? ==> read.value == Persisted(e))
    ensures GetEntry(ttl, SetEntry(m, key, e), key, now).0.Keys
         == if GetEntry(ttl, SetEntry(m, key, e), key, now).1.Some? then m.Keys + {key} else m.Keys - {key}
  {
    if e.scanned >= SECOND {
      StoredTimeBounds(e.scanned, e.scanned);
    }
  }

  // --- the handler, phase by phase ---

  function Cleanup(o: Options, m: Entries, j: Job, at: Time, f: Faults): Entries {
    if f.getPointer then m
    else
      var (m1, pointer) := GetEntry(o.ttl, m, PointerKey(j), at);
      if pointer == None || pointer.value.fingerprint == "" || pointer.value.fingerprint == StateKey(j)
         || f.deletePrevious
      then m1
      else m1 - {pointer.value.fingerprint}
  }

  function Point(m: Entries, j: Job, now: Time, f: Faults): Entries {
    if f.setPointer then m else SetEntry(m, PointerKey(j), Entry(StateKey(j), now, now, j.digest))
  }

  function LastFingerprint(o: Options, m: Entries, j: Job, at: Time, f: Faults): (Entries, string) {
    if f.getState then (m, "")
    else
      match GetEntry(o.ttl, m, StateKey(j), at)
      case (m1, None) => (m1, "")
      case (m1, Some(e)) => (m1, e.fingerprint)
  }

  predicate SinkAccepts(o: Options, f: Faults) {
    (o.toKomodor && o.publisherConfigured && !f.komodor) || (o.toEvents && !f.events)
  }

  datatype Sink = Komodor | KubernetesEvents

  predicate IsEnabled(o: Options, s: Sink) {
    match s
    case Komodor => o.toKomodor
    case KubernetesEvents => o.toEvents
  }

  function EnabledSinks(o: Options): set<Sink> {
    set s: Sink | IsEnabled(o, s)
  }

  predicate Rejects(o: Options, f: Faults, s: Sink) {
    match s
    case Komodor => !o.publisherConfigured || f.komodor
    case KubernetesEvents => f.events
  }

  function AcceptingSinks(o: Options, f: Faults): set<Sink> {
    set s | s in EnabledSinks(o) && !Rejects(o, f, s)
  }

  /** A result counts as published exactly when some enabled sink did not reject it. */
  lemma SinkAcceptsExactly(o: Options, f: Faults)
    ensures SinkAccepts(o, f) <==> AcceptingSinks(o, f) != {}
  {
    if SinkAccepts(o, f) {
      var s := if o.toEvents && !f.events then KubernetesEvents else Komodor;
      assert s in AcceptingSinks(o, f);
    } else {
      assert forall s :: s !in AcceptingSinks(o, f);
    }
  }

  function Decide(o: Options, j: Job, last: string, f: Faults): Outcome {
    if !EvaluatePublish(o.hash, j.result, last, o.onlyOnChange) then Deduplicated
    else if !ShouldPublish(j.result.summary, o.minimumRank, o.publishCleanScans) then BelowThreshold
    else if !SinkAccepts(o, f) then AllSinksFailed
    else Published(!f.setState)
  }

  function Record(o: Options, m: Entries, j: Job, now: Time, outcome: Outcome): Entries {
    if outcome == Published(true)
    then SetEntry(m, StateKey(j), Entry(Fingerprint(o.hash, j.result), now, now, FindingCount(j.result)))
    else m
  }

  function FindingCount(r: ScanResult): string {
    Text.PrintInt(Total(r.summary)) + " findings"
  }

  function Handle(o: Options, m: Entries, j: Job, t: Readings, f: Faults): (Entries, Outcome) {
    var pointed := Point(Cleanup(o, m, j, t.cleanup, f), j, t.now, f);
    var (looked, last) := LastFingerprint(o, pointed, j, t.lookup, f);
    var outcome := Decide(o, j, last, f);
    (Record(o, looked, j, t.now, outcome), outcome)
  }

  // --- no live orphans ---

  predicate Live(ttl: int, m: Entries, k: string, t: Time) {
    k in m && !Expired(ttl, m[k], t)
  }

  /** Pointer q names digest entry k and is at least as recent. */
  predicate Covers(m: Entries, q: string, k: string)
    requires k in m
  {
    q in m && IsPointerKey(q) && m[q].fingerprint == k && m[q].scanned >= m[k].scanned
  }

  ghost predicate NoOrphans(ttl: int, m: Entries, t: Time) {
    forall k :: k in m && !IsPointerKey(k) && !Expired(ttl, m[k], t) ==> exists q :: Covers(m, q, k)
  }

  /** Stored times are past, after the epoch, whole seconds; pointers name digest entries. */
  ghost predicate Sane(m: Entries, t: Time) {
    && (forall k :: k in m ==> SECOND <= m[k].scanned <= t && m[k].scanned % SECOND == 0)
    && (forall q :: q in m && IsPointerKey(q) ==> m[q].fingerprint != "" && !IsPointerKey(m[q].fingerprint))
  }

  ghost predicate Timely(since: Time, t: Readings) {
    SECOND <= since <= t.cleanup <= t.now <= t.lookup
  }

  /** A covering pointer of a live entry is itself live. */
  lemma CoverIsLive(ttl: int, m: Entries, q: string, k: string, t: Time)
    requires Sane(m, t) && k in m && Covers(m, q, k) && Live(ttl, m, k, t)
    ensures Live(ttl, m, q, t)
  {
  }

  /** Waiting creates no orphans. */
  lemma NoOrphansLater(ttl: int, m: Entries, t: Time, u: Time)
    requires NoOrphans(ttl, m, t) && t <= u
    ensures NoOrphans(ttl, m, u)
  {
  }

  lemma StoredTimeBounds(t: Time, earlier: Time)
    requires SECOND <= t
    ensures SECOND <= StoredTime(t) <= t && StoredTime(t) % SECOND == 0
    ensures earlier <= t && earlier % SECOND == 0 ==> earlier <= StoredTime(t)
  {
    if earlier <= t && earlier % SECOND == 0 {
      assert earlier / SECOND <= t / SECOND;
    }
  }

  /**
   Cleanup leaves no orphans, and afterwards the tag's own pointer covers nothing that is live
   except possibly the entry of the job's digest: it can be overwritten.
   */
  lemma CleanupKeeps(o: Options, m: Entries, j: Job, at: Time, f: Faults)
    requires NoOrphans(o.ttl, m, at) && Sane(m, at) && !IsPointerKey(StateKey(j))
    ensures var c := Cleanup(o, m, j, at, f);
            && NoOrphans(o.ttl, c, at) && Sane(c, at)
            && (!f.getPointer && !f.deletePrevious ==>
                  forall k :: k in c && !IsPointerKey(k) && !Expired(o.ttl, c[k], at) && k != StateKey(j) ==>
                    exists q :: q != PointerKey(j) && Covers(c, q, k))
  {
    var c := Cleanup(o, m, j, at, f);
    var p := PointerKey(j);
    forall k | k in c && !IsPointerKey(k) && !Expired(o.ttl, c[k], at) ensures exists q :: Covers(c, q, k) {
      var q :| Covers(m, q, k);
      CoverIsLive(o.ttl, m, q, k, at);
      assert Covers(c, q, k);
    }
    if !f.getPointer && !f.deletePrevious {
      forall k | k in c && !IsPointerKey(k) && !Expired(o.ttl, c[k], at) && k != StateKey(j)
        ensures exists q :: q != p && Covers(c, q, k)
      {
        var q :| Covers(c, q, k);
        if q == p {
          CoverIsLive(o.ttl, m, p, k, at);
          assert false;
        }
      }
    }
  }

  /** What the handler relies on between cleanup and recording: only the job's own digest may lack a pointer. */
  ghost predicate CoveredExcept(ttl: int, m: Entries, j: Job, t: Time) {
    forall k :: k in m && !IsPointerKey(k) && !Expired(ttl, m[k], t) && k != StateKey(j) ==>
      exists q :: q != PointerKey(j) && Covers(m, q, k)
  }

  lemma PointKeeps(o: Options, m: Entries, j: Job, at: Time, now: Time, f: Faults)
    requires NoOrphans(o.ttl, m, at) && Sane(m, at) && !IsPointerKey(StateKey(j))
    requires SECOND <= at <= now
    requires f.setPointer || CoveredExcept(o.ttl, m, j, at)
    ensures var c := Point(m, j, now, f);
            && NoOrphans(o.ttl, c, now) && Sane(c, now)
            && (!f.setPointer ==> Points(c, j, now))
  {
    StoredTimeBounds(now, now);
    NoOrphansLater(o.ttl, m, at, now);
    var c := Point(m, j, now, f);
    if !f.setPointer {
      var p := PointerKey(j);
      forall k | k in c && !IsPointerKey(k) && !Expired(o.ttl, c[k], now) ensures exists q :: Covers(c, q, k) {
        if k == StateKey(j) {
          StoredTimeBounds(now, m[k].scanned);
          assert Covers(c, p, k);
        } else {
          var q :| q != p && Covers(m, q, k);
          assert Covers(c, q, k);
        }
      }
    }
  }

  /** The tag's pointer was just set to the job's digest entry. */
  predicate Points(m: Entries, j: Job, now: Time) {
    PointerKey(j) in m && m[PointerKey(j)].fingerprint == StateKey(j) && m[PointerKey(j)].scanned == StoredTime(now)
  }

  lemma LookupKeeps(o: Options, m: Entries, j: Job, now: Time, at: Time, f: Faults)
    requires NoOrphans(o.ttl, m, now) && Sane(m, now) && !IsPointerKey(StateKey(j)) && now <= at
    ensures var c := LastFingerprint(o, m, j, at, f).0;
            && NoOrphans(o.ttl, c, at) && Sane(c, at)
            && (Points(m, j, now) ==> Points(c, j, now))
  {
    NoOrphansLater(o.ttl, m, now, at);
    var c := LastFingerprint(o, m, j, at, f).0;
    forall k | k in c && !IsPointerKey(k) && !Expired(o.ttl, c[k], at) ensures exists q :: Covers(c, q, k) {
      var q :| Covers(m, q, k);
      assert Covers(c, q, k);
    }
  }

  lemma RecordKeeps(o: Options, m: Entries, j: Job, now: Time, at: Time, outcome: Outcome)
    requires NoOrphans(o.ttl, m, at) && Sane(m, at) && !IsPointerKey(StateKey(j)) && SECOND <= now <= at
    requires outcome == Published(true) ==> Points(m, j, now)
    ensures var c := Record(o, m, j, now, outcome);
            NoOrphans(o.ttl, c, at) && Sane(c, at)
  {
    StoredTimeBounds(now, now);
    var c := Record(o, m, j, now, outcome);
    forall k | k in c && !IsPointerKey(k) && !Expired(o.ttl, c[k], at) ensures exists q :: Covers(c, q, k) {
      if k == StateKey(j) && outcome == Published(true) {
        assert Covers(c, PointerKey(j), k);
      } else {
        var q :| Covers(m, q, k);
        assert Covers(c, q, k);
      }
    }
  }

  // --- which faults are harmless ---

  /**
   Moving the pointer needs the old digest's entry gone; and an entry may be recorded only if
   the pointer was.  Failures of the second lookup are always harmless.
   */
  predicate HarmlessFaults(o: Options, f: Faults) {
    if f.setPointer then f.setState || !SinkAccepts(o, f)
    else !f.getPointer && !f.deletePrevious
  }

  lemma HandleKeeps(o: Options, m: Entries, j: Job, since: Time, t: Readings, f: Faults)
    requires NoOrphans(o.ttl, m, since) && Sane(m, since) && !IsPointerKey(StateKey(j))
    requires Timely(since, t) && HarmlessFaults(o, f)
    ensures NoOrphans(o.ttl, Handle(o, m, j, t, f).0, t.lookup) && Sane(Handle(o, m, j, t, f).0, t.lookup)
  {
    NoOrphansLater(o.ttl, m, since, t.cleanup);
    CleanupKeeps(o, m, j, t.cleanup, f);
    var cleaned := Cleanup(o, m, j, t.cleanup, f);
    PointKeeps(o, cleaned, j, t.cleanup, t.now, f);
    var pointed := Point(cleaned, j, t.now, f);
    LookupKeeps(o, pointed, j, t.now, t.lookup, f);
    var (looked, last) := LastFingerprint(o, pointed, j, t.lookup, f);
    RecordKeeps(o, looked, j, t.now, t.lookup, Decide(o, j, last, f));
  }

  const SAMPLE_TIME: Time := 10 * SECOND

  function SampleEntry(fingerprint: string): Entry {
    Entry(fingerprint, SAMPLE_TIME, SAMPLE_TIME, "")
  }

  const SAMPLE_JOB: Job := Job("r", "a", "t", "d2", "s", ScanResult("s", "d2", Summary(1, 0, 0, 0, 0), []))

  /** A store in which the sample tag points at digest d1, whose entry is live. */
  const SAMPLE_STORE: Entries := map[PointerKey(SAMPLE_JOB) := SampleEntry("d1/s"), "d1/s" := SampleEntry("x")]

  lemma SampleStoreSound(ttl: int)
    ensures NoOrphans(ttl, SAMPLE_STORE, SAMPLE_TIME) && Sane(SAMPLE_STORE, SAMPLE_TIME)
    ensures !IsPointerKey("d1/s") && !IsPointerKey(StateKey(SAMPLE_JOB)) && StateKey(SAMPLE_JOB) != "d1/s"
  {
    assert "d1/s"[0] != POINTER_PREFIX[0] && StateKey(SAMPLE_JOB)[0] != POINTER_PREFIX[0];
    assert StateKey(SAMPLE_JOB)[1] != "d1/s"[1];
    assert Covers(SAMPLE_STORE, PointerKey(SAMPLE_JOB), "d1/s");
  }

  /** The fault pattern f can leave a live orphan behind, starting from a store without one. */
  ghost predicate MayOrphan(o: Options, f: Faults) {
    exists m: Entries, j: Job, since: Time, t: Readings ::
      && NoOrphans(o.ttl, m, since) && Sane(m, since) && !IsPointerKey(StateKey(j)) && Timely(since, t)
      && !NoOrphans(o.ttl, Handle(o, m, j, t, f).0, t.lookup)
  }

  /**
   Exactly the harmful fault patterns can orphan an entry.  The minimum rank is one that
   severityRank can return.
   */
  lemma FaultsExactly(o: Options, f: Faults)
    requires o.minimumRank <= 4
    ensures MayOrphan(o, f) <==> !HarmlessFaults(o, f)
  {
    if HarmlessFaults(o, f) {
      forall m: Entries, j: Job, since: Time, t: Readings
        | NoOrphans(o.ttl, m, since) && Sane(m, since) && !IsPointerKey(StateKey(j)) && Timely(since, t)
        ensures NoOrphans(o.ttl, Handle(o, m, j, t, f).0, t.lookup)
      {
        HandleKeeps(o, m, j, since, t, f);
      }
    } else if f.setPointer {
      RecordedWithoutPointer(o, f);
    } else {
      MovedWithoutCleanup(o, f);
    }
  }

  lemma RecordedWithoutPointer(o: Options, f: Faults)
    requires o.minimumRank <= 4 && f.setPointer && !HarmlessFaults(o, f)
    ensures MayOrphan(o, f)
  {
    var j, t := SAMPLE_JOB, Readings(SAMPLE_TIME, SAMPLE_TIME, SAMPLE_TIME);
    SampleStoreSound(o.ttl);
    var after := Handle(o, map[], j, t, f).0;
    var k := StateKey(j);
    assert after == map[k := Persisted(Entry(Fingerprint(o.hash, j.result), SAMPLE_TIME, SAMPLE_TIME,
        FindingCount(j.result)))];
    assert !Expired(o.ttl, after[k], SAMPLE_TIME);
    assert forall q :: !Covers(after, q, k);
    assert NoOrphans(o.ttl, map[], SAMPLE_TIME) && Sane(map[], SAMPLE_TIME);
  }

  lemma MovedWithoutCleanup(o: Options, f: Faults)
    requires !f.setPointer && (f.getPointer || f.deletePrevious)
    ensures MayOrphan(o, f)
  {
    var j, t := SAMPLE_JOB, Readings(SAMPLE_TIME, SAMPLE_TIME, SAMPLE_TIME);
    SampleStoreSound(o.ttl);
    var after := Handle(o, SAMPLE_STORE, j, t, f).0;
    assert Cleanup(o, SAMPLE_STORE, j, SAMPLE_TIME, f) == SAMPLE_STORE;
    assert "d1/s" in after && after["d1/s"] == SampleEntry("x");
    assert after[PointerKey(j)].fingerprint == StateKey(j);
    assert forall q :: q in after ==> q == PointerKey(j) || q == "d1/s" || q == StateKey(j);
    assert forall q :: !Covers(after, q, "d1/s");
  }
}
