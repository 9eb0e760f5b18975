/** The text a scan result is hashed from, and the decision whether to publish. */
module Fingerprints {
  import opened Text
  import opened Orders
  import opened Scanners

  function NonEmptyCVEs(findings: seq<Finding>): seq<string> {
    if findings == [] then []
    else
      var rest := NonEmptyCVEs(findings[..|findings| - 1]);
      var cve := findings[|findings| - 1].cve;
      if cve != "" then rest + [cve] else rest
  }

  method ExtractCVEs(findings: seq<Finding>) returns (cves: seq<string>)
    ensures cves == Sort(LexLe, NonEmptyCVEs(findings))
    ensures Sorted(LexLe, cves) && multiset(cves) == multiset(NonEmptyCVEs(findings))
  {
    cves := [];
    for i := 0 to |findings|
      invariant cves == NonEmptyCVEs(findings[..i])
    {
      assert findings[..i + 1][..i] == findings[..i];
      if findings[i].cve != "" {
        cves := cves + [findings[i].cve];
      }
    }
    assert findings[..|findings|] == findings;
    LexIsTotalOrder();
    SortSorts(LexLe, cves);
    cves := Sort(LexLe, cves);
  }

  /** Each CVE followed by a comma. */
  function CveText(cves: seq<string>): string {
    if cves == [] then "" else Join(cves[0], ',', CveText(cves[1..]))
  }

  function CountText(s: Summary, rest: string): string {
    Join(PrintInt(s.critical), ',', Join(PrintInt(s.high), ',', Join(PrintInt(s.medium), ',',
      Join(PrintInt(s.low), ',', Join(PrintInt(s.unknown), '|', rest)))))
  }

  /** Everything written to the hash, in order. */
  function Preimage(r: ScanResult): string {
    Join(r.scanner, '|', Join(r.digest, '|', CountText(r.summary, CveText(Sort(LexLe, NonEmptyCVEs(r.findings))))))
  }

  /** Writes a field and its separator; `rest` is what is still to come. */
  method WriteField(buffer: string, field: string, sep: char, ghost rest: string) returns (r: string)
    ensures r + rest == buffer + Join(field, sep, rest)
  {
    r := buffer + field + [sep];
  }

  method WriteCounts(buffer: string, s: Summary, ghost rest: string) returns (r: string)
    ensures r + rest == buffer + CountText(s, rest)
  {
    ghost var r5 := Join(PrintInt(s.unknown), '|', rest);
    ghost var r4 := Join(PrintInt(s.low), ',', r5);
    ghost var r3 := Join(PrintInt(s.medium), ',', r4);
    r := WriteField(buffer, PrintInt(s.critical), ',', Join(PrintInt(s.high), ',', r3));
    r := WriteField(r, PrintInt(s.high), ',', r3);
    r := WriteField(r, PrintInt(s.medium), ',', r4);
    r := WriteField(r, PrintInt(s.low), ',', r5);
    r := WriteField(r, PrintInt(s.unknown), '|', rest);
  }

  method WriteCVEs(buffer: string, cves: seq<string>) returns (r: string)
    ensures r == buffer + CveText(cves)
  {
    r := buffer;
    ghost var whole := buffer + CveText(cves);
    assert cves[0..] == cves;
    for i := 0 to |cves|
      invariant r + CveText(cves[i..]) == whole
    {
      assert cves[i..][0] == cves[i] && cves[i..][1..] == cves[i + 1..];
      r := WriteField(r, cves[i], ',', CveText(cves[i + 1..]));
    }
    assert r + [] == r;
  }

  method WritePreimage(r: ScanResult) returns (written: string)
    ensures written == Preimage(r)
  {
    var cves := ExtractCVEs(r.findings);
    ghost var tail := CveText(cves);
    ghost var counts := CountText(r.summary, tail);
    written := WriteField("", r.scanner, '|', Join(r.digest, '|', counts));
    written := WriteField(written, r.digest, '|', counts);
    written := WriteCounts(written, r.summary, tail);
    written := WriteCVEs(written, cves);
  }

  // --- unambiguity ---

  ghost predicate Unambiguous(r: ScanResult) {
    && '|' !in r.scanner && '|' !in r.digest
    && forall f :: f in r.findings ==> ',' !in f.cve
  }

  lemma {:induction false} NonEmptyCVEsFrom(findings: seq<Finding>)
    ensures forall c :: c in NonEmptyCVEs(findings) ==> exists f :: f in findings && f.cve == c
  {
    if findings == [] {
    } else {
      NonEmptyCVEsFrom(findings[..|findings| - 1]);
      forall c | c in NonEmptyCVEs(findings) ensures exists f :: f in findings && f.cve == c {
        if c !in NonEmptyCVEs(findings[..|findings| - 1]) {
          assert findings[|findings| - 1].cve == c;
        }
      }
    }
  }

  lemma {:induction false} CveTextInjective(a: seq<string>, b: seq<string>)
    requires forall c :: c in a || c in b ==> ',' !in c
    requires CveText(a) == CveText(b)
    ensures a == b
  {
    if a == [] || b == [] {
    } else {
      assert a[0] in a && b[0] in b;
      SplitUnique(a[0], b[0], ',', CveText(a[1..]), CveText(b[1..]));
      CveTextInjective(a[1..], b[1..]);
      assert a == [a[0]] + a[1..] && b == [b[0]] + b[1..];
    }
  }

  lemma PrintedPlain(n: int)
    ensures ',' !in PrintInt(n) && '|' !in PrintInt(n)
  {
  }

  /** Peels one printed count off two equal texts. */
  lemma CountPeels(m: int, n: int, sep: char, x: string, y: string)
    requires sep == ',' || sep == '|'
    requires Join(PrintInt(m), sep, x) == Join(PrintInt(n), sep, y)
    ensures m == n && x == y
  {
    PrintedPlain(m);
    PrintedPlain(n);
    SplitUnique(PrintInt(m), PrintInt(n), sep, x, y);
    PrintIntInjective(m, n);
  }

  lemma CountTextInjective(s: Summary, t: Summary, x: string, y: string)
    requires CountText(s, x) == CountText(t, y)
    ensures s == t && x == y
  {
    CountPeels(s.critical, t.critical, ',',
      Join(PrintInt(s.high), ',',
          Join(PrintInt(s.medium), ',', Join(PrintInt(s.low), ',', Join(PrintInt(s.unknown), '|', x)))),
      Join(PrintInt(t.high), ',',
          Join(PrintInt(t.medium), ',', Join(PrintInt(t.low), ',', Join(PrintInt(t.unknown), '|', y)))));
    CountPeels(s.high, t.high, ',',
      Join(PrintInt(s.medium), ',', Join(PrintInt(s.low), ',', Join(PrintInt(s.unknown), '|', x))),
      Join(PrintInt(t.medium), ',', Join(PrintInt(t.low), ',', Join(PrintInt(t.unknown), '|', y))));
    CountPeels(s.medium, t.medium, ',',
      Join(PrintInt(s.low), ',', Join(PrintInt(s.unknown), '|', x)),
      Join(PrintInt(t.low), ',', Join(PrintInt(t.unknown), '|', y)));
    CountPeels(s.low, t.low, ',', Join(PrintInt(s.unknown), '|', x), Join(PrintInt(t.unknown), '|', y));
    CountPeels(s.unknown, t.unknown, '|', x, y);
  }

  ghost predicate SameForDedupe(a: ScanResult, b: ScanResult) {
    && a.scanner == b.scanner && a.digest == b.digest && a.summary == b.summary
    && multiset(NonEmptyCVEs(a.findings)) == multiset(NonEmptyCVEs(b.findings))
  }

  lemma SortedCVEsCanonical(a: seq<string>, b: seq<string>)
    ensures Sort(LexLe, a) == Sort(LexLe, b) <==> multiset(a) == multiset(b)
  {
    LexIsTotalOrder();
    SortSorts(LexLe, a);
    SortSorts(LexLe, b);
    if multiset(a) == multiset(b) {
      SortedPermutationUnique(LexLe, Sort(LexLe, a), Sort(LexLe, b));
    }
  }

  lemma PreimageSplits(a: ScanResult, b: ScanResult)
    requires '|' !in a.scanner && '|' !in a.digest && '|' !in b.scanner && '|' !in b.digest
    requires Preimage(a) == Preimage(b)
    ensures a.scanner == b.scanner && a.digest == b.digest && a.summary == b.summary
    ensures CveText(Sort(LexLe, NonEmptyCVEs(a.findings))) == CveText(Sort(LexLe, NonEmptyCVEs(b.findings)))
  {
    var x := CveText(Sort(LexLe, NonEmptyCVEs(a.findings)));
    var y := CveText(Sort(LexLe, NonEmptyCVEs(b.findings)));
    var u, v := CountText(a.summary, x), CountText(b.summary, y);
    SplitUnique(a.scanner, b.scanner, '|', Join(a.digest, '|', u), Join(b.digest, '|', v));
    SplitUnique(a.digest, b.digest, '|', u, v);
    CountTextInjective(a.summary, b.summary, x, y);
  }

  /**
   Two results are hashed from the same text exactly when scanner, digest and counts agree and
   they report the same CVEs equally often, in whatever order.
   */
  lemma PreimageExactly(a: ScanResult, b: ScanResult)
    requires Unambiguous(a) && Unambiguous(b)
    ensures Preimage(a) == Preimage(b) <==> SameForDedupe(a, b)
  {
    var x, y := NonEmptyCVEs(a.findings), NonEmptyCVEs(b.findings);
    SortedCVEsCanonical(x, y);
    if Preimage(a) == Preimage(b) {
      PreimageSplits(a, b);
      NonEmptyCVEsFrom(a.findings);
      NonEmptyCVEsFrom(b.findings);
      forall c | c in Sort(LexLe, x) || c in Sort(LexLe, y) ensures ',' !in c {
        assert c in multiset(Sort(LexLe, x)) || c in multiset(Sort(LexLe, y));
        assert c in x || c in y;
      }
      CveTextInjective(Sort(LexLe, x), Sort(LexLe, y));
    }
  }

  /** Outside that they collide: every result with a bar in scanner or digest shares its text with a different one. */
  lemma PreimageCollides(r: ScanResult) returns (other: ScanResult)
    requires '|' in r.scanner || '|' in r.digest
    ensures Preimage(other) == Preimage(r) && !SameForDedupe(other, r)
  {
    var rest := CountText(r.summary, CveText(Sort(LexLe, NonEmptyCVEs(r.findings))));
    if '|' in r.scanner {
      var a, b := BarSplits(r.scanner);
      other := r.(scanner := a, digest := Join(b, '|', r.digest));
      MoveBar(a, b, r.digest, rest);
      assert |a| < |r.scanner|;
    } else {
      var b, c := BarSplits(r.digest);
      other := r.(scanner := Join(r.scanner, '|', b), digest := c);
      MoveBar(r.scanner, b, c, rest);
      assert |other.scanner| > |r.scanner|;
    }
  }

  lemma SortSingle(x: string)
    ensures Sort(LexLe, [x]) == [x]
  {
    LexIsTotalOrder();
    SortSorts(LexLe, [x]);
    SortedPermutationUnique(LexLe, Sort(LexLe, [x]), [x]);
  }

  lemma {:induction false} CveTextEnds(cves: seq<string>)
    requires cves != []
    ensures var t := CveText(cves); t != [] && t[|t| - 1] == ',' && |t| >= |cves|
  {
    if |cves| == 1 {
    } else {
      CveTextEnds(cves[1..]);
    }
  }

  /** The CVEs of a finding whose only CVE is `all`. */
  lemma OnlyCVE(g: Finding, all: string)
    requires g.cve == all != ""
    ensures NonEmptyCVEs([g]) == [all] && CveText(Sort(LexLe, [all])) == all + [',']
  {
    assert [g][..0] == [];
    assert NonEmptyCVEs([g]) == [] + [all] == [all];
    SortSingle(all);
    assert [all][1..] == [];
  }

  /** The text of several CVEs is that of a single one made of all of them. */
  lemma MergedCVEs(cves: seq<string>) returns (all: string)
    requires |cves| >= 2
    ensures all != "" && CveText(Sort(LexLe, cves)) == all + [',']
  {
    LexIsTotalOrder();
    SortSorts(LexLe, cves);
    var sorted := Sort(LexLe, cves);
    assert |sorted| == |multiset(sorted)| == |multiset(cves)| == |cves|;
    CveTextEnds(sorted);
    all := CveText(sorted)[..|CveText(sorted)| - 1];
  }

  /** Nor is a comma harmless: any result with several CVEs shares its text with one whose only CVE has commas. */
  lemma CommasCollide(r: ScanResult) returns (other: ScanResult)
    requires |NonEmptyCVEs(r.findings)| >= 2
    ensures Preimage(other) == Preimage(r) && !SameForDedupe(other, r)
  {
    var all := MergedCVEs(NonEmptyCVEs(r.findings));
    var g := r.findings[0].(cve := all);
    other := r.(findings := [g]);
    OnlyCVE(g, all);
    assert |multiset([all])| == 1 && |multiset(NonEmptyCVEs(r.findings))| >= 2;
  }

  // --- the decision ---

  /** `hash` is SHA-256 printed in hexadecimal. */
  function Fingerprint(hash: string -> string, r: ScanResult): (f: string)
    ensures f != ""
  {
    "sha256:" + hash(Preimage(r))
  }

  predicate EvaluatePublish(hash: string -> string, r: ScanResult, lastFingerprint: string, onlyOnChange: bool) {
    if lastFingerprint == "" then true
    else if Fingerprint(hash, r) != lastFingerprint then true
    else !onlyOnChange
  }
}
