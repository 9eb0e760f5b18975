/** What the Komodor publisher decides and reports about a scan result. */
module Publishing {
  import opened Orders
  import opened Scanners
  import opened DedupeByKey
  import Fingerprints

  // --- whether a result is worth an event ---

  predicate HasRiskAtLevel(s: Summary, minRank: int) {
    || (s.critical > 0 && 4 >= minRank)
    || (s.high > 0 && 3 >= minRank)
    || (s.medium > 0 && 2 >= minRank)
    || (s.low > 0 && 1 >= minRank)
  }

  predicate ShouldPublish(s: Summary, minRank: int, publishCleanScans: bool) {
    if Total(s) == 0 then publishCleanScans else HasRiskAtLevel(s, minRank)
  }

  predicate Risky(f: Finding, minRank: int) {
    f.severity != Unknown && Rank(f.severity) >= minRank
  }

  lemma RiskFound(findings: seq<Finding>, minRank: int) returns (i: nat)
    requires HasRiskAtLevel(Summarise(FindingSeverity, findings), minRank)
    ensures i < |findings| && Risky(findings[i], minRank)
  {
    var s := Summarise(FindingSeverity, findings);
    var v := if s.critical > 0 && 4 >= minRank then Critical
             else if s.high > 0 && 3 >= minRank then High
             else if s.medium > 0 && 2 >= minRank then Medium
             else Low;
    CountedExactly(FindingSeverity, findings, v);
    i :| 0 <= i < |findings| && FindingSeverity(findings[i]) == v;
  }

  lemma RiskCounted(findings: seq<Finding>, minRank: int, i: nat)
    requires i < |findings| && Risky(findings[i], minRank)
    ensures HasRiskAtLevel(Summarise(FindingSeverity, findings), minRank)
  {
    assert FindingSeverity(findings[i]) == findings[i].severity;
    CountedExactly(FindingSeverity, findings, findings[i].severity);
  }

  ghost predicate AnyRisky(findings: seq<Finding>, minRank: int) {
    exists i :: 0 <= i < |findings| && Risky(findings[i], minRank)
  }

  lemma RiskExactly(findings: seq<Finding>, summary: Summary, minRank: int)
    requires summary == Summarise(FindingSeverity, findings)
    ensures HasRiskAtLevel(summary, minRank) <==> AnyRisky(findings, minRank)
    ensures Total(summary) == |findings|
  {
    SummaryAddsUp(FindingSeverity, findings);
    if HasRiskAtLevel(summary, minRank) {
      var i := RiskFound(findings, minRank);
    }
    if i :| 0 <= i < |findings| && Risky(findings[i], minRank) {
      RiskCounted(findings, minRank, i);
    }
  }

  /**
   A result whose summary counts its findings is published exactly when it is clean and clean
   results are wanted, or some finding of known severity reaches the minimum rank; findings of
   unknown severity never suffice.
   */
  lemma PublishedExactly(findings: seq<Finding>, summary: Summary, minRank: int, publishCleanScans: bool)
    requires summary == Summarise(FindingSeverity, findings)
    ensures ShouldPublish(summary, minRank, publishCleanScans) <==>
            (findings == [] && publishCleanScans) || AnyRisky(findings, minRank)
  {
    RiskExactly(findings, summary, minRank);
  }

  // --- ranking of findings ---

  /** All that the ranking looks at. */
  datatype RankKey = RankKey(exploitable: bool, rank: int, fixAvailable: bool, cve: string)

  function KeyOf(f: Finding): RankKey {
    RankKey(f.exploitable, Rank(f.severity), f.fixAvailable, f.cve)
  }

  /** The comparator handed to sort.Slice. */
  predicate Before(f: Finding, g: Finding) {
    if f.exploitable != g.exploitable then f.exploitable
    else if Rank(f.severity) != Rank(g.severity) then Rank(f.severity) > Rank(g.severity)
    else if f.fixAvailable != g.fixAvailable then f.fixAvailable
    else StrLess(f.cve, g.cve)
  }

  predicate KeyLe(a: RankKey, b: RankKey) {
    if a.exploitable != b.exploitable then a.exploitable
    else if a.rank != b.rank then a.rank > b.rank
    else if a.fixAvailable != b.fixAvailable then a.fixAvailable
    else LexLe(a.cve, b.cve)
  }

  lemma KeyLeIsTotalOrder()
    ensures TotalOrder(KeyLe)
  {
    LexIsTotalOrder();
  }

  lemma BeforeIsKeyOrder(f: Finding, g: Finding)
    ensures Before(f, g) <==> !KeyLe(KeyOf(g), KeyOf(f))
  {
    LexTotal(f.cve, g.cve);
  }

  /** Strict weak order: irreflexive, transitive, and so is "neither comes first"; ties share their CVE. */
  lemma BeforeIsStrictWeakOrder(f: Finding, g: Finding, h: Finding)
    ensures !Before(f, f)
    ensures Before(f, g) && Before(g, h) ==> Before(f, h)
    ensures !Before(f, g) && !Before(g, h) ==> !Before(f, h)
    ensures !Before(f, g) && !Before(g, f) ==> KeyOf(f) == KeyOf(g) && f.cve == g.cve
  {
    KeyLeIsTotalOrder();
    BeforeIsKeyOrder(f, f);
    BeforeIsKeyOrder(f, g);
    BeforeIsKeyOrder(g, f);
    BeforeIsKeyOrder(g, h);
    BeforeIsKeyOrder(f, h);
  }

  /** What any sort.Slice may produce, stable or not. */
  ghost predicate SortOf(s: seq<Finding>, t: seq<Finding>) {
    multiset(t) == multiset(s) && InOrder(Before, t)
  }

  /**
   What comes first in any correct sort: exploitable findings; among those alike, the more severe;
   then those with a fix; then the smaller CVE.
   */
  lemma MoreUrgentFirst(s: seq<Finding>, t: seq<Finding>, i: nat, j: nat)
    requires SortOf(s, t) && i < j < |t|
    ensures var f, g := t[i], t[j];
            && (g.exploitable ==> f.exploitable)
            && (f.exploitable == g.exploitable ==>
                  && MoreSevere(f.severity, g.severity)
                  && (f.severity == g.severity ==>
                        && (g.fixAvailable ==> f.fixAvailable)
                        && (f.fixAvailable == g.fixAvailable ==> LexLe(f.cve, g.cve))))
  {
    assert !Before(t[j], t[i]);
    LexTotal(t[i].cve, t[j].cve);
  }

  lemma BeforeOrders()
    ensures StrictWeakOrder(Before)
  {
    forall f, g, h
      ensures (Before(f, g) ==> !Before(g, f)) && (!Before(f, g) && !Before(g, h) ==> !Before(f, h))
    {
      BeforeIsStrictWeakOrder(f, g, h);
      BeforeIsStrictWeakOrder(f, g, f);
    }
  }

  /** The non-empty CVEs among the first `limit` findings. */
  function TopCVEs(sorted: seq<Finding>, limit: int): seq<string>
    decreases |sorted|
  {
    if sorted == [] || limit <= 0 then []
    else
      var first := sorted[0].cve;
      (if first != "" then [first] else []) + TopCVEs(sorted[1..], limit - 1)
  }

  function FirstFindings(sorted: seq<Finding>, limit: int): seq<Finding> {
    if limit <= 0 then [] else if limit <= |sorted| then sorted[..limit] else sorted
  }

  lemma {:induction false} TopCVEsAreFirst(sorted: seq<Finding>, limit: nat)
    requires limit <= |sorted|
    ensures TopCVEs(sorted, limit) == Fingerprints.NonEmptyCVEs(sorted[..limit])
  {
    if limit == 0 {
    } else {
      var first := sorted[..limit];
      TopCVEsSnoc(sorted, limit);
      TopCVEsAreFirst(sorted, limit - 1);
      assert first[..limit - 1] == sorted[..limit - 1];
    }
  }

  lemma {:induction false} TopCVEsSnoc(sorted: seq<Finding>, limit: nat)
    requires 0 < limit <= |sorted|
    ensures TopCVEs(sorted, limit)
         == TopCVEs(sorted, limit - 1) + if sorted[limit - 1].cve != "" then [sorted[limit - 1].cve] else []
    decreases limit
  {
    if limit == 1 {
      assert TopCVEs(sorted[1..], 0) == [];
    } else {
      TopCVEsSnoc(sorted[1..], limit - 1);
    }
  }

  lemma {:induction false} TopCVEsBeyond(sorted: seq<Finding>, limit: int)
    requires limit > |sorted|
    ensures TopCVEs(sorted, limit) == TopCVEs(sorted, |sorted|)
    decreases |sorted|
  {
    if sorted == [] {
    } else {
      TopCVEsBeyond(sorted[1..], limit - 1);
    }
  }

  /** The non-empty CVEs, in order, of the first `limit` findings and no others. */
  lemma TopCVEsOfFirst(sorted: seq<Finding>, limit: int)
    ensures TopCVEs(sorted, limit) == Fingerprints.NonEmptyCVEs(FirstFindings(sorted, limit))
  {
    if limit <= 0 {
    } else if limit <= |sorted| {
      TopCVEsAreFirst(sorted, limit);
    } else {
      TopCVEsBeyond(sorted, limit);
      TopCVEsAreFirst(sorted, |sorted|);
      assert sorted[..|sorted|] == sorted;
    }
  }

  lemma {:induction false} TopCVEsByKeys(s: seq<Finding>, t: seq<Finding>, limit: int)
    requires KeysOf(KeyOf, s) == KeysOf(KeyOf, t)
    ensures TopCVEs(s, limit) == TopCVEs(t, limit)
    decreases |s|
  {
    assert |s| == |t|;
    if s == [] || limit <= 0 {
    } else {
      assert KeyOf(s[0]) == KeysOf(KeyOf, s)[0] == KeysOf(KeyOf, t)[0] == KeyOf(t[0]);
      assert KeysOf(KeyOf, s[1..]) == KeysOf(KeyOf, s)[1..] && KeysOf(KeyOf, t[1..]) == KeysOf(KeyOf, t)[1..];
      TopCVEsByKeys(s[1..], t[1..], limit - 1);
    }
  }

  /**
   The top findings depend on the multiset of findings only: any order of the input and any
   correct sort, stable or not, give the same list.
   */
  lemma TopFindingsCanonical(f: seq<Finding>, g: seq<Finding>, sortedF: seq<Finding>, sortedG: seq<Finding>, limit: int)
    requires multiset(f) == multiset(g)
    requires SortOf(f, sortedF) && SortOf(g, sortedG)
    ensures TopCVEs(sortedF, limit) == TopCVEs(sortedG, limit)
  {
    KeyLeIsTotalOrder();
    forall x, y ensures Before(x, y) <==> !KeyLe(KeyOf(y), KeyOf(x)) {
      BeforeIsKeyOrder(x, y);
    }
    SortedKeysUnique(Before, KeyOf, KeyLe, sortedF, sortedG);
    TopCVEsByKeys(sortedF, sortedG, limit);
  }

  method TopFindingsList(findings: seq<Finding>, limit: int) returns (result: seq<string>)
    ensures forall t :: SortOf(findings, t) ==> result == TopCVEs(t, limit)
    ensures forall t :: SortOf(findings, t) ==> result == Fingerprints.NonEmptyCVEs(FirstFindings(t, limit))
  {
    forall t ensures TopCVEs(t, limit) == Fingerprints.NonEmptyCVEs(FirstFindings(t, limit)) {
      TopCVEsOfFirst(t, limit);
    }
    if limit <= 0 || |findings| == 0 {
      forall t | SortOf(findings, t) ensures TopCVEs(t, limit) == [] {
        assert |t| == |multiset(t)| == |multiset(findings)|;
      }
      return [];
    }
    var sorted := new Finding[|findings|](i requires 0 <= i < |findings| => findings[i]);
    assert sorted[..] == findings;
    BeforeOrders();
    SortSlice(sorted, Before);
    result := FirstCVEs(sorted[..], limit);
    forall t | SortOf(findings, t) ensures result == TopCVEs(t, limit) {
      TopFindingsCanonical(findings, findings, sorted[..], t, limit);
    }
  }

  lemma TopCVEsStep(sorted: seq<Finding>, i: nat, limit: int)
    requires i < |sorted| && i < limit
    ensures var rest := TopCVEs(sorted[i + 1..], limit - i - 1);
            TopCVEs(sorted[i..], limit - i) == if sorted[i].cve != "" then [sorted[i].cve] + rest else rest
  {
    assert sorted[i..][0] == sorted[i] && sorted[i..][1..] == sorted[i + 1..];
  }

  method FirstCVEs(sorted: seq<Finding>, limit: int) returns (result: seq<string>)
    ensures result == TopCVEs(sorted, limit)
  {
    result := [];
    var i := 0;
    while i < |sorted| && i < limit
      invariant 0 <= i <= |sorted| && (i <= limit || i == 0)
      invariant result + TopCVEs(sorted[i..], limit - i) == TopCVEs(sorted, limit)
    {
      TopCVEsStep(sorted, i, limit);
      if sorted[i].cve != "" {
        result := result + [sorted[i].cve];
      }
      i := i + 1;
    }
    assert TopCVEs(sorted[i..], limit - i) == [];
  }
}
