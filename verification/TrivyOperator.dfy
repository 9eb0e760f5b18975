/**
 The Trivy Operator scanner: report lists are fetched through a cache with a time to live, and
 the findings of the matching reports are deduplicated, ranked and counted.
 R is the type of a report; fetching and reading reports are parameters.
 */
module TrivyOperator {
  import opened Wrappers
  import opened Clock
  import opened Orders
  import opened Scanners
  import opened DedupeByKey
  import Text

  // --- the report cache ---

  datatype Cached<R> = Cached(reports: seq<R>, loadedAt: int)

  /**
   One call of listReports: the clock when the cache is consulted, what List would answer, and
   the clock when that answer is stored.
   */
  datatype Query<R> = Query(resource: string, checkedAt: int, answer: Option<seq<R>>, loadedAt: int)

  type Cache<R> = map<string, Cached<R>>

  predicate Hit<R>(ttl: int, cache: Cache<R>, q: Query<R>) {
    q.resource in cache && Sub(q.checkedAt, cache[q.resource].loadedAt) <= ttl
  }

  function Served<R>(ttl: int, cache: Cache<R>, q: Query<R>): Option<seq<R>> {
    if Hit(ttl, cache, q) then Some(cache[q.resource].reports) else q.answer
  }

  function NextCache<R>(ttl: int, cache: Cache<R>, q: Query<R>): Cache<R> {
    if Hit(ttl, cache, q) || q.answer == None then cache
    else cache[q.resource := Cached(q.answer.value, q.loadedAt)]
  }

  /** The cache after a run of calls, one at a time. */
  function CacheAfter<R>(ttl: int, qs: seq<Query<R>>): Cache<R> {
    if qs == [] then map[] else NextCache(ttl, CacheAfter(ttl, qs[..|qs| - 1]), qs[|qs| - 1])
  }

  /** The n-th call goes to the API server. */
  predicate Lists<R>(ttl: int, qs: seq<Query<R>>, n: nat)
    requires n < |qs|
  {
    !Hit(ttl, CacheAfter(ttl, qs[..n]), qs[n])
  }

  /** ... and gets an answer. */
  predicate Loads<R>(ttl: int, qs: seq<Query<R>>, n: nat)
    requires n < |qs|
  {
    Lists(ttl, qs, n) && qs[n].answer.Some?
  }

  ghost predicate LatestLoad<R>(ttl: int, qs: seq<Query<R>>, resource: string, j: nat) {
    && j < |qs| && qs[j].resource == resource && Loads(ttl, qs, j)
    && forall k :: j < k < |qs| && qs[k].resource == resource ==> !Loads(ttl, qs, k)
  }

  lemma LoadsPrefix<R>(ttl: int, qs: seq<Query<R>>, n: nat, j: nat)
    requires j < n <= |qs|
    ensures Loads(ttl, qs[..n], j) == Loads(ttl, qs, j)
  {
    assert qs[..n][..j] == qs[..j];
  }

  lemma LatestLoadStays<R>(ttl: int, qs: seq<Query<R>>, resource: string, j: nat)
    requires qs != [] && LatestLoad(ttl, qs[..|qs| - 1], resource, j)
    requires !(qs[|qs| - 1].resource == resource && Loads(ttl, qs, |qs| - 1))
    ensures LatestLoad(ttl, qs, resource, j)
  {
    var n := |qs| - 1;
    forall k | 0 <= k < n ensures Loads(ttl, qs[..n], k) == Loads(ttl, qs, k) {
      LoadsPrefix(ttl, qs, n, k);
    }
  }

  /** A cached list is the answer of the latest load of its resource; nothing cached means nothing loaded. */
  lemma {:induction false} CacheHoldsLatest<R>(ttl: int, qs: seq<Query<R>>, resource: string) returns (j: int)
    ensures resource in CacheAfter(ttl, qs) ==>
              0 <= j && LatestLoad(ttl, qs, resource, j)
              && CacheAfter(ttl, qs)[resource] == Cached(qs[j].answer.value, qs[j].loadedAt)
    ensures resource !in CacheAfter(ttl, qs) ==>
              forall k :: 0 <= k < |qs| && qs[k].resource == resource ==> !Loads(ttl, qs, k)
  {
    j := -1;
    if qs == [] {
    } else {
      var n := |qs| - 1;
      j := CacheHoldsLatest(ttl, qs[..n], resource);
      if qs[n].resource == resource && Loads(ttl, qs, n) {
        j := n;
      } else if resource in CacheAfter(ttl, qs[..n]) {
        LatestLoadStays(ttl, qs, resource, j);
      } else {
        forall k | 0 <= k < n && qs[k].resource == resource ensures !Loads(ttl, qs, k) {
          LoadsPrefix(ttl, qs, n, k);
        }
      }
    }
  }

  /** Sequential use of a clock that does not go back. */
  ghost predicate Sequential<R>(qs: seq<Query<R>>) {
    && (forall i :: 0 <= i < |qs| ==> qs[i].checkedAt <= qs[i].loadedAt)
    && forall i, j :: 0 <= i < j < |qs| ==> qs[i].loadedAt <= qs[j].checkedAt
  }

  /** Every list served is a List answer for that resource, stored at most ttl ago unless it is this call's own. */
  lemma ServedFresh<R>(ttl: int, qs: seq<Query<R>>, i: nat) returns (j: nat)
    requires ttl < MAX_DURATION && Sequential(qs)
    requires i < |qs| && Served(ttl, CacheAfter(ttl, qs[..i]), qs[i]).Some?
    ensures j <= i && qs[j].resource == qs[i].resource && Loads(ttl, qs, j)
    ensures Served(ttl, CacheAfter(ttl, qs[..i]), qs[i]) == qs[j].answer
    ensures j < i ==> 0 <= qs[i].checkedAt - qs[j].loadedAt <= ttl
  {
    if Lists(ttl, qs, i) {
      j := i;
    } else {
      var k := CacheHoldsLatest(ttl, qs[..i], qs[i].resource);
      LoadsPrefix(ttl, qs, i, k);
      j := k;
    }
  }

  lemma ListsAfterLoad<R>(ttl: int, qs: seq<Query<R>>, i: nat, j: nat)
    requires ttl < MAX_DURATION && Sequential(qs)
    requires i < j < |qs| && qs[i].resource == qs[j].resource
    requires Loads(ttl, qs, i) && Lists(ttl, qs, j)
    ensures qs[j].checkedAt - qs[i].loadedAt > ttl
  {
    LoadsPrefix(ttl, qs, j, i);
    var k := CacheHoldsLatest(ttl, qs[..j], qs[j].resource);
    assert i <= k;
    assert i < k ==> qs[i].loadedAt <= qs[k].checkedAt <= qs[k].loadedAt;
  }

  ghost predicate Answered<R>(ttl: int, qs: seq<Query<R>>, k: nat)
    requires k < |qs|
  {
    Served(ttl, CacheAfter(ttl, qs[..k]), qs[k]).Some?
  }

  /**
   Two List calls for a resource are more than ttl apart whenever a call for it, from the first
   on and before the second, was answered, be it by the server or from the cache.
   */
  lemma ListsApart<R>(ttl: int, qs: seq<Query<R>>, i: nat, k: nat, j: nat)
    requires ttl < MAX_DURATION && Sequential(qs)
    requires i <= k < j < |qs| && qs[i].resource == qs[k].resource == qs[j].resource
    requires Lists(ttl, qs, i) && Answered(ttl, qs, k) && Lists(ttl, qs, j)
    ensures qs[j].checkedAt - qs[i].loadedAt > ttl
  {
    var m := ServedFresh(ttl, qs, k);
    assert i < k ==> qs[i].checkedAt <= qs[i].loadedAt <= qs[k].checkedAt;
    if m < i {
      ListsAfterLoad(ttl, qs, m, i);
    } else {
      ListsAfterLoad(ttl, qs, m, j);
      assert i < m ==> qs[i].loadedAt <= qs[m].checkedAt <= qs[m].loadedAt;
    }
  }

  /** Calls for other resources leave a resource's place in the cache alone. */
  lemma {:induction false} CacheUntouched<R>(ttl: int, qs: seq<Query<R>>, i: nat, resource: string)
    requires i <= |qs| && forall k :: i <= k < |qs| ==> qs[k].resource != resource
    ensures var m, n := CacheAfter(ttl, qs[..i]), CacheAfter(ttl, qs);
            (resource in m <==> resource in n) && (resource in m ==> m[resource] == n[resource])
  {
    if i == |qs| {
      assert qs[..i] == qs;
    } else {
      var n := |qs| - 1;
      assert qs[..n][..i] == qs[..i];
      CacheUntouched(ttl, qs[..n], i, resource);
    }
  }

  lemma TakeTake<T>(s: seq<T>, n: nat, m: nat)
    requires n <= m <= |s|
    ensures s[..m][..n] == s[..n]
  {
  }

  lemma CacheAfterFailure<R>(ttl: int, qs: seq<Query<R>>, i: nat)
    requires i < |qs| && Lists(ttl, qs, i) && qs[i].answer == None
    ensures CacheAfter(ttl, qs[..i + 1]) == CacheAfter(ttl, qs[..i])
  {
    TakeTake(qs, i, i + 1);
  }

  /** After a List that got no answer, the next call for the resource lists again, whatever its clock. */
  lemma ListsAgainAfterFailure<R>(ttl: int, qs: seq<Query<R>>, i: nat, j: nat)
    requires Sequential(qs) && i < j < |qs| && qs[i].resource == qs[j].resource
    requires Lists(ttl, qs, i) && qs[i].answer == None
    requires forall k :: i < k < j ==> qs[k].resource != qs[i].resource
    ensures Lists(ttl, qs, j)
  {
    TakeTake(qs, i + 1, j);
    CacheAfterFailure(ttl, qs, i);
    CacheUntouched(ttl, qs[..j], i + 1, qs[i].resource);
    assert qs[i].checkedAt <= qs[j].checkedAt;
  }

  /** ... also with no time in between. */
  lemma ListsAtOnce<R>(ttl: int, resource: string, at: int) returns (qs: seq<Query<R>>)
    ensures |qs| == 2 && Sequential(qs) && qs[0].resource == qs[1].resource == resource
    ensures Lists(ttl, qs, 0) && Lists(ttl, qs, 1) && qs[1].checkedAt - qs[0].loadedAt == 0
  {
    var q := Query(resource, at, None, at);
    qs := [q, q];
    assert qs[..0] == [] && qs[..1] == [q];
    ListsAgainAfterFailure(ttl, qs, 0, 1);
  }

  // --- fingerprints ---

  function SeverityText(s: Severity): string {
    match s
    case Critical => "critical"
    case High => "high"
    case Medium => "medium"
    case Low => "low"
    case Unknown => "unknown"
  }

  function SeverityOfText(s: string): Severity {
    if s == "critical" then Critical
    else if s == "high" then High
    else if s == "medium" then Medium
    else if s == "low" then Low
    else Unknown
  }

  function Tail(f: Finding): string {
    Text.Join(f.installed, '|', Text.Join(f.fixed, '|', SeverityText(f.severity)))
  }

  function Fingerprint(f: Finding): string {
    Text.Join(f.id, '|', Text.Join(f.pkg, '|', Tail(f)))
  }

  predicate BarFree(f: Finding) {
    '|' !in f.id && '|' !in f.pkg && '|' !in f.installed && '|' !in f.fixed
  }

  lemma SeverityTextDetermines(s: Severity)
    ensures SeverityOfText(SeverityText(s)) == s && '|' !in SeverityText(s)
  {
  }

  predicate SameVulnerability(f: Finding, g: Finding) {
    && f.id == g.id && f.pkg == g.pkg && f.installed == g.installed && f.fixed == g.fixed
    && f.severity == g.severity
  }

  /** Findings without bars share a fingerprint exactly when all five fields agree. */
  lemma FingerprintExactly(f: Finding, g: Finding)
    requires BarFree(f) && BarFree(g)
    ensures Fingerprint(f) == Fingerprint(g) <==> SameVulnerability(f, g)
  {
    if Fingerprint(f) == Fingerprint(g) {
      Text.SplitUnique(f.id, g.id, '|', Text.Join(f.pkg, '|', Tail(f)), Text.Join(g.pkg, '|', Tail(g)));
      Text.SplitUnique(f.pkg, g.pkg, '|', Tail(f), Tail(g));
      Text.SplitUnique(f.installed, g.installed, '|', Text.Join(f.fixed, '|', SeverityText(f.severity)),
                       Text.Join(g.fixed, '|', SeverityText(g.severity)));
      Text.SplitUnique(f.fixed, g.fixed, '|', SeverityText(f.severity), SeverityText(g.severity));
      SeverityTextDetermines(f.severity);
      SeverityTextDetermines(g.severity);
    }
  }

  function Bars(s: string): nat {
    multiset(s)['|']
  }

  lemma JoinBars(a: string, b: string)
    ensures Bars(Text.Join(a, '|', b)) == Bars(a) + 1 + Bars(b)
  {
  }

  lemma NoBars(s: string)
    ensures Bars(s) == 0 <==> '|' !in s
  {
  }

  /** The bars of a fingerprint beyond its four separators are its fields'. */
  lemma FingerprintBars(f: Finding)
    ensures Bars(Fingerprint(f)) == 4 + Bars(f.id) + Bars(f.pkg) + Bars(f.installed) + Bars(f.fixed)
  {
    JoinBars(f.id, Text.Join(f.pkg, '|', Tail(f)));
    JoinBars(f.pkg, Tail(f));
    JoinBars(f.installed, Text.Join(f.fixed, '|', SeverityText(f.severity)));
    JoinBars(f.fixed, SeverityText(f.severity));
    SeverityTextDetermines(f.severity);
    NoBars(SeverityText(f.severity));
  }

  lemma BarFreeByFingerprint(f: Finding, g: Finding)
    requires BarFree(f) && Fingerprint(g) == Fingerprint(f)
    ensures BarFree(g)
  {
    FingerprintBars(f);
    FingerprintBars(g);
    forall s | s in [f.id, f.pkg, f.installed, f.fixed, g.id, g.pkg, g.installed, g.fixed]
      ensures Bars(s) == 0 <==> '|' !in s
    {
      NoBars(s);
    }
  }

  /** A bar inside a field can as well separate it from its neighbour. */
  lemma BarMoves(f: Finding) returns (g: Finding)
    requires !BarFree(f)
    ensures Fingerprint(g) == Fingerprint(f) && !SameVulnerability(f, g)
  {
    if '|' in f.id {
      var a, b := Text.BarSplits(f.id);
      g := f.(id := a, pkg := Text.Join(b, '|', f.pkg));
      Text.MoveBar(a, b, f.pkg, Tail(f));
      assert |a| < |f.id|;
    } else if '|' in f.pkg {
      var a, b := Text.BarSplits(f.pkg);
      g := f.(pkg := a, installed := Text.Join(b, '|', f.installed));
      Text.MoveBar(a, b, f.installed, Text.Join(f.fixed, '|', SeverityText(f.severity)));
      assert |a| < |f.pkg|;
    } else if '|' in f.installed {
      var a, b := Text.BarSplits(f.installed);
      g := f.(installed := a, fixed := Text.Join(b, '|', f.fixed));
      Text.MoveBar(a, b, f.fixed, SeverityText(f.severity));
      assert |a| < |f.installed|;
    } else {
      var a, b := Text.BarSplits(f.fixed);
      g := f.(installed := Text.Join(f.installed, '|', a), fixed := b);
      Text.MoveBar(f.installed, a, b, SeverityText(f.severity));
      assert |b| < |f.fixed|;
    }
  }

  /** A finding shares its fingerprint with a different vulnerability exactly when a bar is in one of its fields. */
  lemma FingerprintsClashExactly(f: Finding)
    ensures (exists g :: Fingerprint(g) == Fingerprint(f) && !SameVulnerability(f, g)) <==> !BarFree(f)
  {
    if !BarFree(f) {
      var g := BarMoves(f);
    } else {
      forall g | Fingerprint(g) == Fingerprint(f) ensures SameVulnerability(f, g) {
        BarFreeByFingerprint(f, g);
        FingerprintExactly(f, g);
      }
    }
  }

  function FingerprintSeverity(k: string): Severity {
    SeverityOfText(Text.AfterLastBar(k))
  }

  /** A fingerprint's last component is its severity, bars or not. */
  lemma FingerprintFixesSeverity(f: Finding)
    ensures FingerprintSeverity(Fingerprint(f)) == f.severity
  {
    var head := f.id + "|" + (f.pkg + "|" + (f.installed + "|" + f.fixed));
    assert Fingerprint(f) == head + "|" + SeverityText(f.severity);
    SeverityTextDetermines(f.severity);
    Text.AfterLastBarOf(head, SeverityText(f.severity));
  }

  /** The counts and the number of findings do not depend on the order in which reports are listed. */
  lemma SummaryIndependentOfListing(a: seq<Finding>, b: seq<Finding>)
    requires multiset(a) == multiset(b)
    ensures Summarise(FindingSeverity, Dedupe(Fingerprint, a)) == Summarise(FindingSeverity, Dedupe(Fingerprint, b))
    ensures |Dedupe(Fingerprint, a)| == |Dedupe(Fingerprint, b)| == |KeySet(Fingerprint, a)|
  {
    forall f | f in a ensures FingerprintSeverity(Fingerprint(f)) == FindingSeverity(f) {
      FingerprintFixesSeverity(f);
    }
    OrderIndependent(Fingerprint, FindingSeverity, FingerprintSeverity, a, b);
  }

  // --- ranking ---

  predicate Before(f: Finding, g: Finding) {
    if Rank(f.severity) != Rank(g.severity) then Rank(f.severity) > Rank(g.severity) else StrLess(f.id, g.id)
  }

  datatype Place = Place(rank: int, id: string)

  function PlaceOf(f: Finding): Place {
    Place(Rank(f.severity), f.id)
  }

  predicate PlaceLe(a: Place, b: Place) {
    if a.rank != b.rank then a.rank > b.rank else LexLe(a.id, b.id)
  }

  lemma PlacesOrdered()
    ensures TotalOrder(PlaceLe)
    ensures forall f, g :: Before(f, g) <==> !PlaceLe(PlaceOf(g), PlaceOf(f))
    ensures StrictWeakOrder(Before)
  {
    LexIsTotalOrder();
    forall f, g ensures Before(f, g) <==> !PlaceLe(PlaceOf(g), PlaceOf(f)) {
      LexTotal(f.id, g.id);
    }
  }

  /** What a scan may report for these findings, whatever its sort does with ties. */
  ghost predicate ReportOf(all: seq<Finding>, findings: seq<Finding>) {
    multiset(findings) == multiset(Dedupe(Fingerprint, all)) && InOrder(Before, findings)
  }

  /** Severities and IDs come in one order only; ties in both may swap. */
  lemma ReportPlacesUnique(all: seq<Finding>, s: seq<Finding>, t: seq<Finding>)
    requires ReportOf(all, s) && ReportOf(all, t)
    ensures KeysOf(PlaceOf, s) == KeysOf(PlaceOf, t)
  {
    PlacesOrdered();
    SortedKeysUnique(Before, PlaceOf, PlaceLe, s, t);
  }

  /** The more severe come first, and of one severity the smaller ID. */
  lemma MoreSevereFirst(all: seq<Finding>, findings: seq<Finding>, i: nat, j: nat)
    requires ReportOf(all, findings) && i < j < |findings|
    ensures var f, g := findings[i], findings[j];
            MoreSevere(f.severity, g.severity) && (f.severity == g.severity ==> LexLe(f.id, g.id))
  {
    assert !Before(findings[j], findings[i]);
    LexTotal(findings[i].id, findings[j].id);
  }

  lemma {:induction false} DedupeKeys(s: seq<Finding>)
    ensures KeySet(Fingerprint, Dedupe(Fingerprint, s)) == KeySet(Fingerprint, s)
    ensures forall i, j :: 0 <= i < j < |Dedupe(Fingerprint, s)| ==>
              Fingerprint(Dedupe(Fingerprint, s)[i]) != Fingerprint(Dedupe(Fingerprint, s)[j])
  {
    if s == [] {
    } else {
      var rest, last := s[..|s| - 1], s[|s| - 1];
      DedupeKeys(rest);
      KeySetSnoc(Fingerprint, s);
      if Fingerprint(last) !in KeySet(Fingerprint, rest) {
        var d := Dedupe(Fingerprint, s);
        assert d[..|d| - 1] == Dedupe(Fingerprint, rest);
        KeySetSnoc(Fingerprint, d);
      }
    }
  }

  /** A report holds exactly one finding for each fingerprint found. */
  lemma OnePerFingerprint(all: seq<Finding>, findings: seq<Finding>)
    requires ReportOf(all, findings)
    ensures |findings| == |KeySet(Fingerprint, all)|
    ensures KeySet(Fingerprint, findings) == KeySet(Fingerprint, all)
  {
    DedupeCounts(Fingerprint, all);
    DedupeKeys(all);
    assert |findings| == |multiset(findings)| == |multiset(Dedupe(Fingerprint, all))|;
    KeySetsAgree(Fingerprint, findings, Dedupe(Fingerprint, all));
  }

  // --- what a scan finds ---

  type Extractor<!R> = (string, R) -> Option<seq<Finding>>

  function FoundIn<R>(extract: Extractor<R>, resource: string, reports: seq<R>): seq<Finding> {
    if reports == [] then []
    else
      FoundIn(extract, resource, reports[..|reports| - 1]) +
      match extract(resource, reports[|reports| - 1])
      case None => []
      case Some(findings) => findings
  }

  /** All findings of the matching reports in the lists served for the resources. */
  function FoundInAll<R>(extract: Extractor<R>, resources: seq<string>, lists: seq<seq<R>>): seq<Finding>
    requires |resources| == |lists|
  {
    if lists == [] then []
    else
      var n := |lists| - 1;
      FoundInAll(extract, resources[..n], lists[..n]) + FoundIn(extract, resources[n], lists[n])
  }

  /** `seen` and `findings` as they stand once `all` has been gone through. */
  ghost predicate Gathered(all: seq<Finding>, seen: set<string>, findings: seq<Finding>) {
    seen == KeySet(Fingerprint, all) && findings == Dedupe(Fingerprint, all)
  }

  lemma GatheredOneMore(all: seq<Finding>, f: Finding, seen: set<string>, findings: seq<Finding>)
    requires Gathered(all, seen, findings)
    ensures if Fingerprint(f) in seen then Gathered(all + [f], seen, findings)
            else Gathered(all + [f], seen + {Fingerprint(f)}, findings + [f])
  {
    assert (all + [f])[..|all|] == all;
    KeySetSnoc(Fingerprint, all + [f]);
    assert Fingerprint(f) in seen ==> seen + {Fingerprint(f)} == seen;
  }

  lemma FoundInOneMore<R>(extract: Extractor<R>, resource: string, reports: seq<R>, n: nat)
    requires n < |reports|
    ensures var found, here := extract(resource, reports[n]), FoundIn(extract, resource, reports[..n]);
            FoundIn(extract, resource, reports[..n + 1]) == if found.Some? then here + found.value else here
  {
    assert reports[..n + 1][..n] == reports[..n];
  }

  lemma TakeOneMore(before: seq<Finding>, found: seq<Finding>, n: nat)
    requires n < |found|
    ensures before + found[..n] + [found[n]] == before + found[..n + 1]
  {
  }

  lemma Associative(a: seq<Finding>, b: seq<Finding>, c: seq<Finding>)
    ensures (a + b) + c == a + (b + c)
  {
  }

  lemma FoundInAllOneMore<R>(extract: Extractor<R>, resources: seq<string>, lists: seq<seq<R>>, last: seq<R>)
    requires |lists| < |resources|
    ensures var n := |lists|;
            FoundInAll(extract, resources[..n + 1], lists + [last]) ==
            FoundInAll(extract, resources[..n], lists) + FoundIn(extract, resources[n], last)
  {
    var n := |lists|;
    assert resources[..n + 1][..n] == resources[..n] && (lists + [last])[..n] == lists;
  }

  /** The k-th list served for a scan. */
  function ListServed<R>(ttl: int, past: seq<Query<R>>, world: seq<Query<R>>, k: nat): Option<seq<R>>
    requires k < |world|
  {
    Served(ttl, CacheAfter(ttl, past + world[..k]), world[k])
  }

  /** These are the first lists served for the scan. */
  ghost predicate AllServed<R>(ttl: int, past: seq<Query<R>>, world: seq<Query<R>>, lists: seq<seq<R>>) {
    |lists| <= |world| && forall k :: 0 <= k < |lists| ==> ListServed(ttl, past, world, k) == Some(lists[k])
  }

  lemma AllServedOneMore<R>(ttl: int, past: seq<Query<R>>, world: seq<Query<R>>, lists: seq<seq<R>>, last: seq<R>)
    requires |lists| < |world| && AllServed(ttl, past, world, lists)
    requires ListServed(ttl, past, world, |lists|) == Some(last)
    ensures AllServed(ttl, past, world, lists + [last])
  {
  }

  lemma OneMoreQuery<R>(past: seq<Query<R>>, world: seq<Query<R>>, n: nat)
    requires n < |world|
    ensures past + world[..n] + [world[n]] == past + world[..n + 1]
  {
  }

  class OperatorScanner<R> {
    const cacheTTL: Duration
    var cache: Cache<R>
    ghost var queries: seq<Query<R>>

    ghost predicate Valid()
      reads this
    {
      cache == CacheAfter(cacheTTL, queries)
    }

    constructor (cacheTTL: Duration)
      ensures Valid() && queries == [] && this.cacheTTL == cacheTTL
    {
      this.cacheTTL := cacheTTL;
      cache := map[];
      queries := [];
    }

    method CachedReports(resource: string, now: int) returns (reports: Option<seq<R>>)
      ensures reports == if resource in cache && Sub(now, cache[resource].loadedAt) <= cacheTTL
                         then Some(cache[resource].reports) else None
    {
      if resource !in cache {
        return None;
      }
      if Sub(now, cache[resource].loadedAt) > cacheTTL {
        return None;
      }
      return Some(cache[resource].reports);
    }

    method ListReports(q: Query<R>) returns (reports: Option<seq<R>>)
      requires Valid()
      modifies this
      ensures Valid() && queries == old(queries) + [q]
      ensures reports == Served(cacheTTL, CacheAfter(cacheTTL, old(queries)), q)
    {
      assert (queries + [q])[..|queries|] == queries;
      queries := queries + [q];
      var hit := CachedReports(q.resource, q.checkedAt);
      if hit.Some? {
        return hit;
      }
      if q.answer == None {
        return None;
      }
      cache := cache[q.resource := Cached(q.answer.value, q.loadedAt)];
      return q.answer;
    }

    method AppendNew(f: Finding, seen: set<string>, findings: seq<Finding>, ghost before: seq<Finding>)
      returns (seen': set<string>, findings': seq<Finding>)
      requires Gathered(before, seen, findings)
      ensures Gathered(before + [f], seen', findings')
    {
      GatheredOneMore(before, f, seen, findings);
      seen', findings' := seen, findings;
      var fingerprint := Fingerprint(f);
      if fingerprint !in seen {
        seen' := seen + {fingerprint};
        findings' := findings + [f];
      }
    }

    method Append(found: seq<Finding>, seen: set<string>, findings: seq<Finding>, ghost before: seq<Finding>)
      returns (seen': set<string>, findings': seq<Finding>)
      requires Gathered(before, seen, findings)
      ensures Gathered(before + found, seen', findings')
    {
      seen', findings' := seen, findings;
      ghost var all := before;
      assert before + found[..0] == before;
      for n := 0 to |found|
        invariant all == before + found[..n] && Gathered(all, seen', findings')
      {
        seen', findings' := AppendNew(found[n], seen', findings', all);
        TakeOneMore(before, found, n);
        all := all + [found[n]];
      }
      assert found[..|found|] == found;
    }

    /** Appends the findings of the matching reports whose fingerprints are new. */
    method Gather(extract: Extractor<R>, resource: string, reports: seq<R>, seen: set<string>, findings: seq<Finding>,
                  ghost before: seq<Finding>)
      returns (seen': set<string>, findings': seq<Finding>)
      requires Gathered(before, seen, findings)
      ensures Gathered(before + FoundIn(extract, resource, reports), seen', findings')
    {
      seen', findings' := seen, findings;
      ghost var all := before;
      ghost var here: seq<Finding> := [];
      for n := 0 to |reports|
        invariant here == FoundIn(extract, resource, reports[..n]) && all == before + here
        invariant Gathered(all, seen', findings')
      {
        FoundInOneMore(extract, resource, reports, n);
        var found := extract(resource, reports[n]);
        if found.Some? {
          seen', findings' := Append(found.value, seen', findings', all);
          Associative(before, here, found.value);
          all, here := all + found.value, here + found.value;
        }
      }
      assert reports[..|reports|] == reports;
    }

    /**
     `world` says what each resource's listReports call meets.  The scan fails at the first
     resource whose list is neither cached nor answered; otherwise `lists` are the lists served.
     */
    method Scan(resources: seq<string>, world: seq<Query<R>>, extract: Extractor<R>)
      returns (result: Option<(Summary, seq<Finding>)>, ghost lists: seq<seq<R>>)
      requires Valid()
      requires |world| == |resources| && forall k :: 0 <= k < |world| ==> world[k].resource == resources[k]
      modifies this
      ensures Valid()
      ensures AllServed(cacheTTL, old(queries), world, lists) && (result.Some? <==> |lists| == |world|)
      ensures queries == old(queries) + world[..if result.Some? then |world| else |lists| + 1]
      ensures result == None ==> ListServed(cacheTTL, old(queries), world, |lists|) == None
      ensures result.Some? ==>
                var all := FoundInAll(extract, resources, lists);
                && ReportOf(all, result.value.1)
                && result.value.0 == Summarise(FindingSeverity, result.value.1)
                && Total(result.value.0) == |result.value.1| == |KeySet(Fingerprint, all)|
    {
      var findings;
      var listed;
      listed, findings, lists := ScanResources(resources, world, extract);
      if !listed {
        return None, lists;
      }
      ghost var all := FoundInAll(extract, resources, lists);
      var ranked := RankFindings(findings);
      OnePerFingerprint(all, ranked);
      var summary := SummariseLoop(FindingSeverity, ranked);
      return Some((summary, ranked)), lists;
    }

    /** One resource: its list, then the new findings in it. */
    method ScanResource(resource: string, q: Query<R>, extract: Extractor<R>, seen: set<string>, findings: seq<Finding>,
                        ghost before: seq<Finding>)
      returns (reports: Option<seq<R>>, seen': set<string>, findings': seq<Finding>)
      requires Valid() && Gathered(before, seen, findings)
      modifies this
      ensures Valid() && queries == old(queries) + [q]
      ensures reports == Served(cacheTTL, CacheAfter(cacheTTL, old(queries)), q)
      ensures reports.Some? ==> Gathered(before + FoundIn(extract, resource, reports.value), seen', findings')
    {
      seen', findings' := seen, findings;
      reports := ListReports(q);
      if reports.Some? {
        seen', findings' := Gather(extract, resource, reports.value, seen, findings, before);
      }
    }

    /** The loop over the resources. */
    method ScanResources(resources: seq<string>, world: seq<Query<R>>, extract: Extractor<R>)
      returns (listed: bool, findings: seq<Finding>, ghost lists: seq<seq<R>>)
      requires Valid()
      requires |world| == |resources| && forall k :: 0 <= k < |world| ==> world[k].resource == resources[k]
      modifies this
      ensures Valid()
      ensures AllServed(cacheTTL, old(queries), world, lists) && (listed <==> |lists| == |world|)
      ensures queries == old(queries) + world[..if listed then |world| else |lists| + 1]
      ensures !listed ==> ListServed(cacheTTL, old(queries), world, |lists|) == None
      ensures listed ==> findings == Dedupe(Fingerprint, FoundInAll(extract, resources, lists))
    {
      var seen: set<string> := {};
      findings := [];
      lists := [];
      ghost var all: seq<Finding> := [];
      ghost var past := queries;
      for n := 0 to |resources|
        invariant Valid() && |lists| == n && queries == past + world[..n] && AllServed(cacheTTL, past, world, lists)
        invariant all == FoundInAll(extract, resources[..n], lists) && Gathered(all, seen, findings)
      {
        var reports;
        reports, seen, findings := ScanResource(resources[n], world[n], extract, seen, findings, all);
        OneMoreQuery(past, world, n);
        if reports == None {
          return false, findings, lists;
        }
        FoundInAllOneMore(extract, resources, lists, reports.value);
        all := all + FoundIn(extract, resources[n], reports.value);
        AllServedOneMore(cacheTTL, past, world, lists, reports.value);
        lists := lists + [reports.value];
      }
      assert resources[..|resources|] == resources && world[..|world|] == world;
      return true, findings, lists;
    }

    method RankFindings(findings: seq<Finding>) returns (ranked: seq<Finding>)
      ensures multiset(ranked) == multiset(findings) && InOrder(Before, ranked)
    {
      var a := new Finding[|findings|](i requires 0 <= i < |findings| => findings[i]);
      assert a[..] == findings;
      PlacesOrdered();
      SortSlice(a, Before);
      ranked := a[..];
    }
  }
}
