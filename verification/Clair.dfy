/**
 Normalising a Clair report: every object anywhere in the JSON that looks like a vulnerability
 is collected, duplicates are dropped, and severities are counted.  Go visits the fields of an
 object in no fixed order.
 */
module Clair {
  import Text
  import opened Scanners
  import opened DedupeByKey

  datatype Json =
    | Null | Bool(b: bool) | Num(text: string) | Str(s: string) | Arr(items: seq<Json>) | Obj(fields: Object)

  type Object = map<string, Json>

  // --- what is read from an object ---

  function Field(v: Object, key: string): string {
    if key in v && v[key].Str? then v[key].s else ""
  }

  /** firstNonEmpty, two values at a time. */
  function Or(a: string, b: string): string {
    if a != "" then a else b
  }

  function Identity(v: Object): string {
    Or(Field(v, "id"), Or(Field(v, "vulnerability"),
        Or(Field(v, "vulnerabilityId"), Or(Field(v, "name"), Field(v, "title")))))
  }

  function PackageName(v: Object): string {
    Or(Field(v, "package"), Or(Field(v, "packageName"), Or(Field(v, "featureName"), Field(v, "artifact"))))
  }

  function InstalledVersion(v: Object): string {
    Or(Field(v, "installedVersion"), Or(Field(v, "version"), Field(v, "featureVersion")))
  }

  function SeverityText(v: Object): string {
    Or(Field(v, "severity"), Field(v, "normalizedSeverity"))
  }

  function FixedVersion(v: Object): string {
    Or(Field(v, "fixedVersion"), Or(Field(v, "fixedby"), Field(v, "fixedBy")))
  }

  predicate LooksLikeVulnerability(v: Object) {
    SeverityText(v) != "" && Identity(v) != ""
  }

  function LowerChar(c: char): char {
    if 'A' <= c <= 'Z' then c - 'A' + 'a' else c
  }

  /** strings.ToLower on ASCII letters. */
  function ToLower(s: string): (r: string)
    ensures |r| == |s| && forall i :: 0 <= i < |s| ==> (r[i] == '|' <==> s[i] == '|')
  {
    seq(|s|, i requires 0 <= i < |s| => LowerChar(s[i]))
  }

  /** ParseSeverity on lower-case text; anything unrecognised is unknown. */
  function ParseSeverityOrUnknown(lower: string): Severity {
    if lower == "critical" then Critical
    else if lower == "high" then High
    else if lower == "medium" then Medium
    else if lower == "low" then Low
    else Unknown
  }

  function SeverityOf(v: Object): Severity {
    ParseSeverityOrUnknown(ToLower(SeverityText(v)))
  }

  function KeyText(id: string, pkg: string, version: string, lower: string): string {
    id + "|" + pkg + "|" + version + "|" + lower
  }

  function DedupeKey(v: Object): string {
    KeyText(Identity(v), PackageName(v), InstalledVersion(v), ToLower(SeverityText(v)))
  }

  /** r is the first non-empty value among these fields, or "" when all are empty. */
  ghost predicate FirstNonEmpty(v: Object, keys: seq<string>, r: string) {
    if r == "" then forall i :: 0 <= i < |keys| ==> Field(v, keys[i]) == ""
    else exists i :: 0 <= i < |keys| && Field(v, keys[i]) == r && forall j :: 0 <= j < i ==> Field(v, keys[j]) == ""
  }

  lemma NoFields(v: Object)
    ensures FirstNonEmpty(v, [], "")
  {
  }

  lemma OneMoreField(v: Object, key: string, keys: seq<string>, r: string)
    requires FirstNonEmpty(v, keys, r)
    ensures FirstNonEmpty(v, [key] + keys, Or(Field(v, key), r))
  {
    var all := [key] + keys;
    if Field(v, key) != "" {
      assert all[0] == key;
    } else if r != "" {
      var i :| 0 <= i < |keys| && Field(v, keys[i]) == r && forall j :: 0 <= j < i ==> Field(v, keys[j]) == "";
      assert all[i + 1] == keys[i];
      assert forall j :: 0 <= j < i + 1 ==> all[j] == if j == 0 then key else keys[j - 1];
    }
  }

  lemma TwoFields(v: Object, a: string, b: string)
    ensures FirstNonEmpty(v, [a, b], Or(Field(v, a), Field(v, b)))
  {
    NoFields(v);
    OneMoreField(v, b, [], "");
    OneMoreField(v, a, [b], Field(v, b));
    assert [b] + [] == [b] && [a] + [b] == [a, b];
  }

  lemma ThreeFields(v: Object, a: string, b: string, c: string)
    ensures FirstNonEmpty(v, [a, b, c], Or(Field(v, a), Or(Field(v, b), Field(v, c))))
  {
    TwoFields(v, b, c);
    OneMoreField(v, a, [b, c], Or(Field(v, b), Field(v, c)));
    assert [a] + [b, c] == [a, b, c];
  }

  lemma FourFields(v: Object, a: string, b: string, c: string, d: string)
    ensures FirstNonEmpty(v, [a, b, c, d], Or(Field(v, a), Or(Field(v, b), Or(Field(v, c), Field(v, d)))))
  {
    ThreeFields(v, b, c, d);
    OneMoreField(v, a, [b, c, d], Or(Field(v, b), Or(Field(v, c), Field(v, d))));
    assert [a] + [b, c, d] == [a, b, c, d];
  }

  /** Two objects are one finding exactly when identity, package, version and severity in lower case agree. */
  lemma DedupeKeyExactly(v: Object, w: Object)
    requires BarFree(v) && BarFree(w)
    ensures DedupeKey(v) == DedupeKey(w)
            <==> FindingOf(v).id == FindingOf(w).id && FindingOf(v).pkg == FindingOf(w).pkg
                 && FindingOf(v).installed == FindingOf(w).installed
                 && ToLower(SeverityText(v)) == ToLower(SeverityText(w))
  {
    DedupeKeyParts(v);
    DedupeKeyParts(w);
    if DedupeKey(v) == DedupeKey(w) {
      Text.SplitUnique(Identity(v), Identity(w), '|', AfterIdentity(v), AfterIdentity(w));
      Text.SplitUnique(PackageName(v), PackageName(w), '|', AfterPackage(v), AfterPackage(w));
      Text.SplitUnique(InstalledVersion(v), InstalledVersion(w), '|', ToLower(SeverityText(v)),
                       ToLower(SeverityText(w)));
    }
  }

  predicate BarFree(v: Object) {
    '|' !in Identity(v) && '|' !in PackageName(v) && '|' !in InstalledVersion(v)
  }

  function AfterPackage(v: Object): string {
    Text.Join(InstalledVersion(v), '|', ToLower(SeverityText(v)))
  }

  function AfterIdentity(v: Object): string {
    Text.Join(PackageName(v), '|', AfterPackage(v))
  }

  lemma DedupeKeyParts(v: Object)
    ensures DedupeKey(v) == Text.Join(Identity(v), '|', AfterIdentity(v))
  {
  }

  // --- the finding built from an object ---

  function UpperChar(c: char): char {
    if 'a' <= c <= 'z' then c - 'a' + 'A' else c
  }

  /** strings.ToUpper on ASCII letters. */
  function ToUpper(s: string): (r: string)
    ensures |r| == |s| && forall i :: 0 <= i < |s| ==> r[i] == UpperChar(s[i])
  {
    seq(|s|, i requires 0 <= i < |s| => UpperChar(s[i]))
  }

  /** The two cases of one letter, and of what has none. */
  lemma CasesOfLetter(i: nat, c: char)
    ensures i < 26 ==> LowerChar('A' + i as char) == 'a' + i as char && UpperChar('a' + i as char) == 'A' + i as char
    ensures !('A' <= c <= 'Z') ==> LowerChar(c) == c
    ensures !('a' <= c <= 'z') ==> UpperChar(c) == c
  {
  }

  const CVE_PREFIX: string := "CVE-"

  /** Begins with "CVE-" in any case. */
  predicate LooksLikeCVE(s: string) {
    CVE_PREFIX <= ToUpper(s)
  }

  lemma CVEBegins(s: string)
    ensures LooksLikeCVE(s) <==> |s| >= 4 && s[0] in "Cc" && s[1] in "Vv" && s[2] in "Ee" && s[3] == '-'
  {
    if |s| >= 4 {
      assert forall i :: 0 <= i < 4 ==> ToUpper(s)[i] == UpperChar(s[i]);
      assert CVE_PREFIX <= ToUpper(s) <==> forall i :: 0 <= i < 4 ==> ToUpper(s)[i] == CVE_PREFIX[i];
      assert CVE_PREFIX[0] == 'C' && CVE_PREFIX[1] == 'V' && CVE_PREFIX[2] == 'E' && CVE_PREFIX[3] == '-';
    }
  }

  /** The text from its first "CVE-" on, in any case; "" if there is none. */
  function FromCVE(s: string): string {
    if s == "" || LooksLikeCVE(s) then s else FromCVE(s[1..])
  }

  function ItemText(j: Json): string {
    if j.Str? then j.s else ""
  }

  function CVEInLinks(items: seq<Json>): string {
    if items == [] then ""
    else
      var found := FromCVE(ItemText(items[0]));
      if found != "" then found else CVEInLinks(items[1..])
  }

  function Links(v: Object): seq<Json> {
    if "links" in v && v["links"].Arr? then v["links"].items else []
  }

  function FirstCVE(v: Object): string {
    if LooksLikeCVE(Field(v, "cve")) then Field(v, "cve")
    else if LooksLikeCVE(Field(v, "CVE")) then Field(v, "CVE")
    else CVEInLinks(Links(v))
  }

  function CVEOf(v: Object): string {
    var cve := FirstCVE(v);
    if cve == "" && LooksLikeCVE(Identity(v)) then Identity(v) else cve
  }

  predicate IsTrue(v: Object, key: string) {
    key in v && v[key] == Bool(true)
  }

  function FindingOf(v: Object): Finding {
    Finding(Identity(v), CVEOf(v), PackageName(v), InstalledVersion(v), FixedVersion(v), SeverityOf(v),
            IsTrue(v, "exploitable"), FixedVersion(v) != "")
  }

  /** Which fields a finding is read from, the preferred one first. */
  lemma FieldsPreferred(v: Object)
    ensures FirstNonEmpty(v, ["id", "vulnerability", "vulnerabilityId", "name", "title"], FindingOf(v).id)
    ensures FirstNonEmpty(v, ["package", "packageName", "featureName", "artifact"], FindingOf(v).pkg)
    ensures FirstNonEmpty(v, ["installedVersion", "version", "featureVersion"], FindingOf(v).installed)
    ensures FirstNonEmpty(v, ["fixedVersion", "fixedby", "fixedBy"], FindingOf(v).fixed)
    ensures FindingOf(v).fixAvailable <==> FindingOf(v).fixed != ""
    ensures FindingOf(v).exploitable <==> "exploitable" in v && v["exploitable"] == Bool(true)
    ensures FirstNonEmpty(v, ["severity", "normalizedSeverity"], SeverityText(v))
    ensures forall sev :: sev != Unknown ==>
              (FindingOf(v).severity == sev <==> ToLower(SeverityText(v)) == SeverityName(sev))
  {
    FourFields(v, "vulnerability", "vulnerabilityId", "name", "title");
    var rest := ["vulnerability", "vulnerabilityId", "name", "title"];
    OneMoreField(v, "id", rest, Or(Field(v, "vulnerability"), Or(Field(v, "vulnerabilityId"),
        Or(Field(v, "name"), Field(v, "title")))));
    assert ["id"] + rest == ["id", "vulnerability", "vulnerabilityId", "name", "title"];
    FourFields(v, "package", "packageName", "featureName", "artifact");
    ThreeFields(v, "installedVersion", "version", "featureVersion");
    ThreeFields(v, "fixedVersion", "fixedby", "fixedBy");
    TwoFields(v, "severity", "normalizedSeverity");
    forall sev | sev != Unknown
      ensures FindingOf(v).severity == sev <==> ToLower(SeverityText(v)) == SeverityName(sev)
    {
      SeverityNamed(ToLower(SeverityText(v)), sev);
    }
  }

  function SeverityName(sev: Severity): string {
    match sev
    case Critical => "critical"
    case High => "high"
    case Medium => "medium"
    case Low => "low"
    case Unknown => "unknown"
  }

  lemma SeverityNamed(lower: string, sev: Severity)
    requires sev != Unknown
    ensures ParseSeverityOrUnknown(lower) == sev <==> lower == SeverityName(sev)
  {
    assert |SeverityName(Critical)| == 8 && |SeverityName(High)| == 4;
    assert |SeverityName(Medium)| == 6 && |SeverityName(Low)| == 3;
  }

  ghost predicate HasCVE(s: string) {
    exists i :: 0 <= i <= |s| && LooksLikeCVE(s[i..])
  }

  /** The suffix is the one at the first "CVE-". */
  lemma {:induction false} FromCVEExactly(s: string)
    ensures FromCVE(s) != "" <==> HasCVE(s)
    ensures HasCVE(s) ==>
              var n := |s| - |FromCVE(s)|;
              && 0 <= n && s[n..] == FromCVE(s) && LooksLikeCVE(FromCVE(s))
              && forall i :: 0 <= i < n ==> !LooksLikeCVE(s[i..])
  {
    assert s[0..] == s;
    if s == "" {
      assert forall i :: 0 <= i <= |s| ==> s[i..] == "";
    } else if LooksLikeCVE(s) {
    } else {
      FromCVEExactly(s[1..]);
      assert forall i :: 0 <= i <= |s| - 1 ==> s[1..][i..] == s[i + 1..];
      if HasCVE(s) {
        var i :| 0 <= i <= |s| && LooksLikeCVE(s[i..]);
        assert LooksLikeCVE(s[1..][i - 1..]);
      }
      forall i | 0 <= i < |s| - |FromCVE(s)| ensures HasCVE(s) ==> !LooksLikeCVE(s[i..]) {
        if i > 0 && HasCVE(s) {
          assert s[1..][i - 1..] == s[i..];
        }
      }
    }
  }

  /** The first link with a "CVE-" in it decides. */
  lemma {:induction false} LinksDecide(items: seq<Json>)
    ensures CVEInLinks(items) == "" <==> forall i :: 0 <= i < |items| ==> !HasCVE(ItemText(items[i]))
    ensures CVEInLinks(items) != "" ==>
              exists i :: 0 <= i < |items| && CVEInLinks(items) == FromCVE(ItemText(items[i])) != ""
                          && forall k :: 0 <= k < i ==> !HasCVE(ItemText(items[k]))
  {
    if items == [] {
    } else {
      FromCVEExactly(ItemText(items[0]));
      var rest := items[1..];
      LinksDecide(rest);
      assert forall i :: 0 < i < |items| ==> items[i] == rest[i - 1];
      if FromCVE(ItemText(items[0])) == "" {
        if CVEInLinks(rest) == "" {
          forall i | 0 <= i < |items| ensures !HasCVE(ItemText(items[i])) {
            assert i > 0 ==> items[i] == rest[i - 1];
          }
        } else {
          var i :| 0 <= i < |rest| && CVEInLinks(rest) == FromCVE(ItemText(rest[i])) != ""
            && forall k :: 0 <= k < i ==> !HasCVE(ItemText(rest[k]));
          assert items[i + 1] == rest[i];
          FromCVEExactly(ItemText(rest[i]));
        }
      }
    }
  }

  /**
   Where a finding's CVE comes from: the field "cve", else "CVE", if it begins with "CVE-" in any
   case; else the first link with "CVE-" in it; else the identity if it begins so; and it is empty
   exactly when there is none of these.  A CVE that is not empty begins with "CVE-".
   */
  lemma CVEPreferred(v: Object)
    ensures var cve, a, b := CVEOf(v), Field(v, "cve"), Field(v, "CVE");
            && (LooksLikeCVE(a) ==> cve == a)
            && (!LooksLikeCVE(a) && LooksLikeCVE(b) ==> cve == b)
            && (!LooksLikeCVE(a) && !LooksLikeCVE(b) && CVEInLinks(Links(v)) != "" ==> cve == CVEInLinks(Links(v)))
            && (cve == "" <==> !LooksLikeCVE(a) && !LooksLikeCVE(b) && !LooksLikeCVE(Identity(v))
                               && forall i :: 0 <= i < |Links(v)| ==> !HasCVE(ItemText(Links(v)[i])))
            && (cve == "" || LooksLikeCVE(cve))
  {
    LinksDecide(Links(v));
    if CVEInLinks(Links(v)) != "" {
      var i :| 0 <= i < |Links(v)| && CVEInLinks(Links(v)) == FromCVE(ItemText(Links(v)[i])) != "";
      FromCVEExactly(ItemText(Links(v)[i]));
    }
  }

  // --- traversal ---

  /** Each key exactly once. */
  ghost predicate Enumerates(order: seq<string>, keys: set<string>) {
    && (forall k :: k in order <==> k in keys)
    && (forall i, j :: 0 <= i < j < |order| ==> order[i] != order[j])
  }

  function Flatten(parts: seq<seq<Object>>): seq<Object> {
    if parts == [] then [] else Flatten(parts[..|parts| - 1]) + parts[|parts| - 1]
  }

  function Own(v: Object): seq<Object> {
    if LooksLikeVulnerability(v) then [v] else []
  }

  /** One traversal: the order in which each object's fields were visited. */
  datatype Visit = Leaf | Fields(order: seq<string>, parts: seq<Visit>) | Items(parts: seq<Visit>)

  ghost predicate Visits(j: Json, v: Visit)
    decreases j
  {
    match (j, v)
    case (Obj(m), Fields(order, parts)) =>
      && |parts| == |order| && Enumerates(order, m.Keys)
      && forall i :: 0 <= i < |order| ==> order[i] in m && Visits(m[order[i]], parts[i])
    case (Arr(items), Items(parts)) =>
      |parts| == |items| && forall i :: 0 <= i < |items| ==> Visits(items[i], parts[i])
    case (Obj(_), _) => false
    case (Arr(_), _) => false
    case _ => v.Leaf?
  }

  /** What the traversal appends. */
  ghost function Collected(j: Json, v: Visit): seq<Object>
    requires Visits(j, v)
    decreases j
  {
    match (j, v)
    case (Obj(m), Fields(order, parts)) =>
      Own(m) + Flatten(seq(|order|, i requires 0 <= i < |order| => Collected(m[order[i]], parts[i])))
    case (Arr(items), Items(parts)) =>
      Flatten(seq(|items|, i requires 0 <= i < |items| => Collected(items[i], parts[i])))
    case _ => []
  }

  lemma {:induction false} FlattenPointwise(a: seq<seq<Object>>, b: seq<seq<Object>>)
    requires |a| == |b| && forall i :: 0 <= i < |a| ==> multiset(a[i]) == multiset(b[i])
    ensures multiset(Flatten(a)) == multiset(Flatten(b))
  {
    if a == [] {
    } else {
      FlattenPointwise(a[..|a| - 1], b[..|b| - 1]);
    }
  }

  function Without<T>(s: seq<T>, i: nat): seq<T>
    requires i < |s|
  {
    s[..i] + s[i + 1..]
  }

  lemma FlattenLast(parts: seq<seq<Object>>)
    requires parts != []
    ensures multiset(Flatten(parts)) == multiset(Flatten(parts[..|parts| - 1])) + multiset(parts[|parts| - 1])
  {
  }

  lemma WithoutLast<T>(s: seq<T>, i: nat)
    requires i < |s| - 1
    ensures var n, w := |s| - 1, Without(s, i);
            w != [] && w[..|w| - 1] == Without(s[..n], i) && w[|w| - 1] == s[n]
  {
  }

  lemma {:induction false} FlattenWithout(parts: seq<seq<Object>>, i: nat)
    requires i < |parts|
    ensures multiset(Flatten(parts)) == multiset(Flatten(Without(parts, i))) + multiset(parts[i])
  {
    var n := |parts| - 1;
    FlattenLast(parts);
    if i == n {
      assert Without(parts, i) == parts[..n];
    } else {
      FlattenWithout(parts[..n], i);
      WithoutLast(parts, i);
      FlattenLast(Without(parts, i));
    }
  }

  ghost predicate SameParts(order1: seq<string>, parts1: seq<seq<Object>>, order2: seq<string>,
                            parts2: seq<seq<Object>>) {
    && |parts1| == |order1| && |parts2| == |order2|
    && forall i, j :: 0 <= i < |order1| && 0 <= j < |order2| && order1[i] == order2[j] ==>
         multiset(parts1[i]) == multiset(parts2[j])
  }

  lemma SamePartsWithout(order1: seq<string>, parts1: seq<seq<Object>>, order2: seq<string>, parts2: seq<seq<Object>>,
                         i: nat)
    requires SameParts(order1, parts1, order2, parts2) && order1 != [] && i < |order2|
    ensures SameParts(order1[..|order1| - 1], parts1[..|order1| - 1], Without(order2, i), Without(parts2, i))
  {
  }

  /** Two enumerations of the same keys, with the same contribution per key, collect the same bag. */
  lemma {:induction false} OrderIrrelevant(order1: seq<string>, parts1: seq<seq<Object>>, order2: seq<string>,
                                           parts2: seq<seq<Object>>, keys: set<string>)
    requires Enumerates(order1, keys) && Enumerates(order2, keys)
    requires SameParts(order1, parts1, order2, parts2)
    ensures multiset(Flatten(parts1)) == multiset(Flatten(parts2))
    decreases |order1|
  {
    EnumerationSize(order1, keys);
    EnumerationSize(order2, keys);
    if order1 == [] {
    } else {
      var n := |order1| - 1;
      var k := order1[n];
      assert k in order2;
      var i :| 0 <= i < |order2| && order2[i] == k;
      EnumeratesWithout(order1, keys, n);
      EnumeratesWithout(order2, keys, i);
      assert Without(order1, n) == order1[..n];
      SamePartsWithout(order1, parts1, order2, parts2, i);
      OrderIrrelevant(order1[..n], parts1[..n], Without(order2, i), Without(parts2, i), keys - {k});
      FlattenWithout(parts2, i);
      FlattenLast(parts1);
    }
  }

  lemma {:induction false} EnumerationSize(order: seq<string>, keys: set<string>)
    requires Enumerates(order, keys)
    ensures |order| == |keys|
  {
    if order == [] {
      assert keys == {};
    } else {
      var n := |order| - 1;
      assert order[n] in keys;
      EnumeratesWithout(order, keys, n);
      assert Without(order, n) == order[..n];
      EnumerationSize(order[..n], keys - {order[n]});
    }
  }

  /** Visits of the fields, one by one, and what each collected. */
  ghost predicate FieldsVisited(m: Object, order: seq<string>, parts: seq<Visit>, outs: seq<seq<Object>>) {
    && |parts| == |order| == |outs|
    && forall i :: 0 <= i < |order| ==>
         order[i] in m && Visits(m[order[i]], parts[i]) && outs[i] == Collected(m[order[i]], parts[i])
  }

  lemma CollectedFields(m: Object, order: seq<string>, parts: seq<Visit>, outs: seq<seq<Object>>)
    requires Enumerates(order, m.Keys) && FieldsVisited(m, order, parts, outs)
    ensures Visits(Obj(m), Fields(order, parts))
    ensures Collected(Obj(m), Fields(order, parts)) == Own(m) + Flatten(outs)
  {
    assert outs == seq(|order|, i requires 0 <= i < |order| => Collected(m[order[i]], parts[i]));
  }

  ghost predicate ItemsVisited(items: seq<Json>, parts: seq<Visit>, outs: seq<seq<Object>>) {
    && |parts| == |items| == |outs|
    && forall i :: 0 <= i < |items| ==> Visits(items[i], parts[i]) && outs[i] == Collected(items[i], parts[i])
  }

  lemma CollectedItems(items: seq<Json>, parts: seq<Visit>, outs: seq<seq<Object>>)
    requires ItemsVisited(items, parts, outs)
    ensures Visits(Arr(items), Items(parts)) && Collected(Arr(items), Items(parts)) == Flatten(outs)
  {
    assert outs == seq(|items|, i requires 0 <= i < |items| => Collected(items[i], parts[i]));
  }

  lemma EnumeratesWithout(order: seq<string>, keys: set<string>, i: nat)
    requires Enumerates(order, keys) && i < |order|
    ensures Enumerates(Without(order, i), keys - {order[i]})
  {
    var w := Without(order, i);
    forall k ensures k in w <==> k in keys - {order[i]} {
      if k in keys && k != order[i] {
        var j :| 0 <= j < |order| && order[j] == k;
        assert w[if j < i then j else j - 1] == k;
      }
    }
  }

  /** Whatever order the fields are visited in, the same vulnerabilities are collected equally often. */
  lemma {:induction false} VisitsAgree(j: Json, v1: Visit, v2: Visit)
    requires Visits(j, v1) && Visits(j, v2)
    ensures multiset(Collected(j, v1)) == multiset(Collected(j, v2))
    decreases j
  {
    match j {
      case Obj(m) =>
        var n := |v1.order|;
        var parts1 := seq(n, i requires 0 <= i < n => Collected(m[v1.order[i]], v1.parts[i]));
        var parts2 := seq(|v2.order|, i requires 0 <= i < |v2.order| => Collected(m[v2.order[i]], v2.parts[i]));
        forall i, k | 0 <= i < n && 0 <= k < |v2.order| && v1.order[i] == v2.order[k]
          ensures multiset(parts1[i]) == multiset(parts2[k])
        {
          VisitsAgree(m[v1.order[i]], v1.parts[i], v2.parts[k]);
        }
        OrderIrrelevant(v1.order, parts1, v2.order, parts2, m.Keys);
      case Arr(items) =>
        var parts1 := seq(|items|, i requires 0 <= i < |items| => Collected(items[i], v1.parts[i]));
        var parts2 := seq(|items|, i requires 0 <= i < |items| => Collected(items[i], v2.parts[i]));
        forall i | 0 <= i < |items| ensures multiset(parts1[i]) == multiset(parts2[i]) {
          VisitsAgree(items[i], v1.parts[i], v2.parts[i]);
        }
        FlattenPointwise(parts1, parts2);
      case _ =>
    }
  }

  // --- what is collected ---

  /** m is an object somewhere in j. */
  ghost predicate Inside(m: Object, j: Json)
    decreases j
  {
    match j
    case Obj(fields) => m == fields || exists k :: k in fields && Inside(m, fields[k])
    case Arr(items) => exists i :: 0 <= i < |items| && Inside(m, items[i])
    case _ => false
  }

  lemma {:induction false} InFlatten(parts: seq<seq<Object>>, m: Object)
    ensures m in Flatten(parts) <==> exists i :: 0 <= i < |parts| && m in parts[i]
  {
    if parts == [] {
    } else {
      var rest := parts[..|parts| - 1];
      InFlatten(rest, m);
      assert forall i :: 0 <= i < |rest| ==> rest[i] == parts[i];
      if i :| 0 <= i < |parts| && m in parts[i] {
        assert i < |rest| ==> m in rest[i];
      }
    }
  }

  /** Some severity field and some identity field are not empty. */
  ghost predicate Vulnerable(m: Object) {
    && !FirstNonEmpty(m, ["severity", "normalizedSeverity"], "")
    && !FirstNonEmpty(m, ["id", "vulnerability", "vulnerabilityId", "name", "title"], "")
  }

  lemma FirstUnique(v: Object, keys: seq<string>, r: string)
    requires FirstNonEmpty(v, keys, r)
    ensures FirstNonEmpty(v, keys, "") <==> r == ""
  {
  }

  /** Any traversal collects exactly the objects of the report, however deep, that have a severity and an identity. */
  lemma CollectedExactly(j: Json, v: Visit, m: Object)
    requires Visits(j, v)
    ensures m in Collected(j, v) <==> Inside(m, j) && Vulnerable(m)
  {
    FieldsPreferred(m);
    FirstUnique(m, ["severity", "normalizedSeverity"], SeverityText(m));
    FirstUnique(m, ["id", "vulnerability", "vulnerabilityId", "name", "title"], Identity(m));
    CollectedInside(j, v, m);
  }

  lemma FieldsInside(fields: Object, order: seq<string>, parts: seq<seq<Object>>, m: Object)
    requires |parts| == |order| && Enumerates(order, fields.Keys)
    requires forall i :: 0 <= i < |parts| ==>
               order[i] in fields && (m in parts[i] <==> Inside(m, fields[order[i]]) && LooksLikeVulnerability(m))
    ensures m in Flatten(parts) <==> LooksLikeVulnerability(m) && exists k :: k in fields && Inside(m, fields[k])
  {
    InFlatten(parts, m);
    if k :| k in fields && Inside(m, fields[k]) {
      assert k in order;
      var i :| 0 <= i < |order| && order[i] == k;
      assert m in parts[i] <==> LooksLikeVulnerability(m);
    }
  }

  lemma ItemsInside(items: seq<Json>, parts: seq<seq<Object>>, m: Object)
    requires |parts| == |items|
    requires forall i :: 0 <= i < |parts| ==> (m in parts[i] <==> Inside(m, items[i]) && LooksLikeVulnerability(m))
    ensures m in Flatten(parts) <==> LooksLikeVulnerability(m) && exists i :: 0 <= i < |items| && Inside(m, items[i])
  {
    InFlatten(parts, m);
    if i :| 0 <= i < |items| && Inside(m, items[i]) {
      assert m in parts[i] <==> LooksLikeVulnerability(m);
    }
  }

  lemma {:induction false} CollectedInside(j: Json, v: Visit, m: Object)
    requires Visits(j, v)
    ensures m in Collected(j, v) <==> Inside(m, j) && LooksLikeVulnerability(m)
    decreases j, 1
  {
    match j {
      case Obj(_) => CollectedInFields(j, v, m);
      case Arr(_) => CollectedInItems(j, v, m);
      case _ =>
    }
  }

  lemma {:induction false} CollectedInFields(j: Json, v: Visit, m: Object)
    requires j.Obj? && Visits(j, v)
    ensures m in Collected(j, v) <==> Inside(m, j) && LooksLikeVulnerability(m)
    decreases j, 0
  {
    var fields, n := j.fields, |v.order|;
    var parts := seq(n, i requires 0 <= i < n => Collected(fields[v.order[i]], v.parts[i]));
    forall i | 0 <= i < n
      ensures m in parts[i] <==> Inside(m, fields[v.order[i]]) && LooksLikeVulnerability(m)
    {
      CollectedInside(fields[v.order[i]], v.parts[i], m);
    }
    FieldsInside(fields, v.order, parts, m);
    assert Collected(j, v) == Own(fields) + Flatten(parts);
  }

  lemma {:induction false} CollectedInItems(j: Json, v: Visit, m: Object)
    requires j.Arr? && Visits(j, v)
    ensures m in Collected(j, v) <==> Inside(m, j) && LooksLikeVulnerability(m)
    decreases j, 0
  {
    var items := j.items;
    var parts := seq(|items|, i requires 0 <= i < |items| => Collected(items[i], v.parts[i]));
    forall i | 0 <= i < |items| ensures m in parts[i] <==> Inside(m, items[i]) && LooksLikeVulnerability(m) {
      CollectedInside(items[i], v.parts[i], m);
    }
    ItemsInside(items, parts, m);
    assert Collected(j, v) == Flatten(parts);
  }

  // --- severities and dedupe keys ---

  function KeySeverity(key: string): Severity {
    ParseSeverityOrUnknown(Text.AfterLastBar(key))
  }

  /** The text after the last bar, which the dedupe key cannot tell from a severity, names none. */
  predicate SafeSeverity(s: string) {
    '|' !in s || ParseSeverityOrUnknown(Text.AfterLastBar(ToLower(s))) == Unknown
  }

  ghost predicate SafeSeverities(vulns: seq<Object>) {
    forall v :: v in vulns ==> SafeSeverity(SeverityText(v))
  }

  lemma BarIsUnknown(lower: string)
    requires '|' in lower
    ensures ParseSeverityOrUnknown(lower) == Unknown
  {
  }

  lemma LowerKeepsBars(s: string)
    ensures '|' in ToLower(s) <==> '|' in s
  {
    if '|' in s {
      var i :| 0 <= i < |s| && s[i] == '|';
      assert ToLower(s)[i] == '|';
    }
    if '|' in ToLower(s) {
      var i :| 0 <= i < |s| && ToLower(s)[i] == '|';
      assert s[i] == '|';
    }
  }

  lemma KeyFixesSeverity(v: Object)
    requires SafeSeverity(SeverityText(v))
    ensures KeySeverity(DedupeKey(v)) == SeverityOf(v)
  {
    var head, lower := Identity(v) + "|" + PackageName(v) + "|" + InstalledVersion(v), ToLower(SeverityText(v));
    LowerKeepsBars(SeverityText(v));
    if '|' in lower {
      Text.AfterLastBarWithin(head + "|", lower);
      BarIsUnknown(lower);
    } else {
      Text.AfterLastBarOf(head, lower);
    }
  }

  lemma KeysFixSeverities(vulns: seq<Object>)
    requires SafeSeverities(vulns)
    ensures forall v :: v in vulns ==> KeySeverity(DedupeKey(v)) == SeverityOf(v)
  {
    forall v | v in vulns ensures KeySeverity(DedupeKey(v)) == SeverityOf(v) {
      KeyFixesSeverity(v);
    }
  }

  /**
   The number of findings never depends on the traversal, and neither does the summary when all
   severity texts are safe: both are functions of the set of dedupe keys in the report.
   */
  lemma SummaryIndependentOfOrder(j: Json, v1: Visit, v2: Visit)
    requires Visits(j, v1) && Visits(j, v2)
    ensures SameReport(Collected(j, v1), Collected(j, v2))
  {
    var out1, out2 := Collected(j, v1), Collected(j, v2);
    assert multiset(out1) == multiset(out2) by { VisitsAgree(j, v1, v2); }
    BagDecides(out1, out2);
  }

  ghost predicate SameReport(out1: seq<Object>, out2: seq<Object>) {
    var d1, d2, keys := Dedupe(DedupeKey, out1), Dedupe(DedupeKey, out2), KeySet(DedupeKey, out1);
    && |d1| == |d2| == |keys| == Total(Summarise(SeverityOf, d1))
    && (SafeSeverities(out1) ==>
          Summarise(SeverityOf, d1) == Summarise(SeverityOf, d2) == KeySummary(KeySeverity, keys))
  }

  lemma BagDecides(out1: seq<Object>, out2: seq<Object>)
    requires multiset(out1) == multiset(out2)
    ensures SameReport(out1, out2)
  {
    if SafeSeverities(out1) {
      KeysFixSeverities(out1);
    }
    OrderIndependent(DedupeKey, SeverityOf, KeySeverity, out1, out2);
  }

  // --- where a bar in a severity breaks it ---

  /** A vulnerability with severity s, and one with the text before its last bar moved into the version. */
  function Odd(s: string): Object {
    map["id" := Str("a"), "severity" := Str(s)]
  }

  function Moved(head: string, last: string): Object {
    map["id" := Str("a"), "version" := Str("|" + head), "severity" := Str(last)]
  }

  function PairOf(a: Object, b: Object): Object {
    map["x" := Obj(a), "y" := Obj(b)]
  }

  ghost function SomeOrder(keys: set<string>): (order: seq<string>)
    ensures Enumerates(order, keys)
  {
    if keys == {} then []
    else
      var k :| k in keys;
      SomeOrder(keys - {k}) + [k]
  }

  /** A visit of an object whose fields are all strings. */
  ghost function FlatVisit(v: Object): Visit {
    var order := SomeOrder(v.Keys);
    Fields(order, seq(|order|, _ => Leaf))
  }

  ghost predicate AllStrings(v: Object) {
    forall k :: k in v ==> v[k].Str?
  }

  lemma FlatVisits(v: Object)
    requires AllStrings(v)
    ensures Visits(Obj(v), FlatVisit(v)) && Collected(Obj(v), FlatVisit(v)) == Own(v)
  {
    var order, parts := FlatVisit(v).order, FlatVisit(v).parts;
    assert forall i :: 0 <= i < |order| ==> order[i] in v.Keys;
    FlattenEmpties(seq(|order|, i requires 0 <= i < |order| => Collected(v[order[i]], parts[i])));
  }

  lemma {:induction false} FlattenEmpties(parts: seq<seq<Object>>)
    requires forall i :: 0 <= i < |parts| ==> parts[i] == []
    ensures Flatten(parts) == []
  {
    if parts == [] {
    } else {
      FlattenEmpties(parts[..|parts| - 1]);
    }
  }

  lemma FlattenPair(a: seq<Object>, b: seq<Object>)
    ensures Flatten([a, b]) == a + b
  {
    assert [a, b][..1] == [a] && [a][..0] == [];
    assert Flatten([a]) == a;
  }

  /** An object of two fields that is no vulnerability itself, visited k1 first. */
  lemma PairVisits(m: Object, k1: string, v1: Visit, o1: seq<Object>, k2: string, v2: Visit, o2: seq<Object>)
    requires k1 != k2 && m.Keys == {k1, k2} && Own(m) == []
    requires Visits(m[k1], v1) && Collected(m[k1], v1) == o1
    requires Visits(m[k2], v2) && Collected(m[k2], v2) == o2
    ensures Visits(Obj(m), Fields([k1, k2], [v1, v2]))
    ensures Collected(Obj(m), Fields([k1, k2], [v1, v2])) == o1 + o2
  {
    CollectedFields(m, [k1, k2], [v1, v2], [o1, o2]);
    FlattenPair(o1, o2);
  }

  lemma OddFields(s: string)
    requires s != ""
    ensures Identity(Odd(s)) == "a" && PackageName(Odd(s)) == "" && InstalledVersion(Odd(s)) == ""
    ensures SeverityText(Odd(s)) == s && Own(Odd(s)) == [Odd(s)] && AllStrings(Odd(s))
  {
  }

  lemma MovedFields(head: string, last: string)
    requires last != ""
    ensures var v := Moved(head, last);
            && Identity(v) == "a" && PackageName(v) == "" && InstalledVersion(v) == "|" + head
            && SeverityText(v) == last && Own(v) == [v] && AllStrings(v)
  {
  }

  lemma PairFields(a: Object, b: Object)
    ensures var m := PairOf(a, b);
            Own(m) == [] && m.Keys == {"x", "y"} && m["x"] == Obj(a) && m["y"] == Obj(b) && "x" != "y"
  {
  }

  lemma LowerAlready(s: string)
    requires forall i :: 0 <= i < |s| ==> !('A' <= s[i] <= 'Z')
    ensures ToLower(s) == s
  {
  }

  lemma NamesAreLower(last: string)
    requires ParseSeverityOrUnknown(last) != Unknown
    ensures last != "" && ToLower(last) == last && '|' !in last
  {
    LowerAlready(last);
  }

  /** One identity and no package; one has the bars in its severity, the other some of them in its version. */
  lemma KeysClash(a: Object, b: Object, head: string, last: string)
    requires Identity(a) == Identity(b) && PackageName(a) == PackageName(b) == "" && InstalledVersion(a) == ""
    requires ToLower(SeverityText(a)) == head + "|" + last
    requires InstalledVersion(b) == "|" + head && ToLower(SeverityText(b)) == last
    ensures DedupeKey(a) == DedupeKey(b)
  {
    var id, lower, version := Identity(a), ToLower(SeverityText(a)), "|" + head;
    KeyOfParts(a, id, "", "", lower);
    KeyOfParts(b, id, "", version, last);
    BarMoved(lower, head, last);
    SameText(id, lower, version, last);
  }

  lemma BarMoved(lower: string, head: string, last: string)
    requires lower == head + "|" + last
    ensures "|" + lower == ("|" + head) + "|" + last
  {
  }

  lemma KeyOfParts(v: Object, id: string, pkg: string, version: string, lower: string)
    requires Identity(v) == id && PackageName(v) == pkg && InstalledVersion(v) == version
    requires ToLower(SeverityText(v)) == lower
    ensures DedupeKey(v) == KeyText(id, pkg, version, lower)
  {
  }

  /** Same key, different severities. */
  lemma OddAndMovedClash(s: string, head: string, last: string) returns (a: Object, b: Object)
    requires s != "" && ToLower(s) == head + "|" + last && ParseSeverityOrUnknown(last) != Unknown
    ensures SeverityText(a) == s && Own(a) == [a] && AllStrings(a)
    ensures SeverityText(b) == last && '|' !in last && Own(b) == [b] && AllStrings(b)
    ensures DedupeKey(a) == DedupeKey(b) && SeverityOf(a) == Unknown && SeverityOf(b) != Unknown
  {
    a, b := Odd(s), Moved(head, last);
    assert ToLower(s)[|head|] == '|';
    NamesAreLower(last);
    OddFields(s);
    MovedFields(head, last);
    BarIsUnknown(ToLower(s));
    KeysClash(a, b, head, last);
  }

  lemma SameText(id: string, sev1: string, version2: string, sev2: string)
    requires "|" + sev1 == version2 + "|" + sev2
    ensures KeyText(id, "", "", sev1) == KeyText(id, "", version2, sev2)
  {
    assert id + "|" + "" + "|" + "" + "|" + sev1 == id + "|" + "|" + ("|" + sev1);
    assert id + "|" + "" + "|" + version2 + "|" + sev2 == id + "|" + "|" + (version2 + "|" + sev2);
  }

  lemma PairVisit(m: Object, k1: string, v1: Visit, o1: seq<Object>, k2: string, v2: Visit, o2: seq<Object>)
    returns (v: Visit)
    requires k1 != k2 && m.Keys == {k1, k2} && Own(m) == []
    requires Visits(m[k1], v1) && Collected(m[k1], v1) == o1
    requires Visits(m[k2], v2) && Collected(m[k2], v2) == o2
    ensures Visits(Obj(m), v) && Collected(Obj(m), v) == o1 + o2
  {
    PairVisits(m, k1, v1, o1, k2, v2, o2);
    v := Fields([k1, k2], [v1, v2]);
  }

  lemma LoneVisit(a: Object) returns (v: Visit)
    requires AllStrings(a) && Own(a) == [a]
    ensures Visits(Obj(a), v) && Collected(Obj(a), v) == [a]
  {
    FlatVisits(a);
    v := FlatVisit(a);
  }

  /** A report of two vulnerabilities and nothing else, traversed k1 first. */
  lemma ReportVisit(m: Object, k1: string, a: Object, k2: string, b: Object) returns (v: Visit, found: seq<Object>)
    requires k1 != k2 && m.Keys == {k1, k2} && m[k1] == Obj(a) && m[k2] == Obj(b) && Own(m) == []
    requires AllStrings(a) && Own(a) == [a] && AllStrings(b) && Own(b) == [b]
    ensures Visits(Obj(m), v) && found == Collected(Obj(m), v)
    ensures found == [a, b]
  {
    var v1 := LoneVisit(a);
    var v2 := LoneVisit(b);
    v := PairVisit(m, k1, v1, [a], k2, v2, [b]);
    found := [a] + [b];
  }

  /** The two traversals count the same. */
  ghost predicate CountAlike(out1: seq<Object>, out2: seq<Object>) {
    Summarise(SeverityOf, Dedupe(DedupeKey, out1)) == Summarise(SeverityOf, Dedupe(DedupeKey, out2))
  }

  /** When two share a dedupe key, the one met first is counted. */
  lemma FirstCounts(a: Object, b: Object)
    requires DedupeKey(a) == DedupeKey(b) && SeverityOf(a) != SeverityOf(b)
    ensures !CountAlike([a, b], [b, a])
  {
    PairDedupes(DedupeKey, SeverityOf, a, b);
    PairDedupes(DedupeKey, SeverityOf, b, a);
  }

  /** For every unsafe severity, a report with no other bar in a severity, and two traversals that count differently. */
  lemma SummaryDependsOnOrder(s: string)
    returns (m: Object, v: Visit, found: seq<Object>, w: Visit, alsoFound: seq<Object>)
    requires !SafeSeverity(s)
    ensures Visits(Obj(m), v) && found == Collected(Obj(m), v)
    ensures Visits(Obj(m), w) && alsoFound == Collected(Obj(m), w)
    ensures OthersBarFree(found, s) && !CountAlike(found, alsoFound)
  {
    LowerKeepsBars(s);
    var head := Text.LastBarSplits(ToLower(s));
    var a, b := OddAndMovedClash(s, head, Text.AfterLastBar(ToLower(s)));
    m := PairOf(a, b);
    v, found := FirstThenSecond(a, b);
    w, alsoFound := SecondThenFirst(a, b);
    FirstCounts(a, b);
  }

  lemma FirstThenSecond(a: Object, b: Object) returns (v: Visit, found: seq<Object>)
    requires AllStrings(a) && Own(a) == [a] && AllStrings(b) && Own(b) == [b]
    ensures Visits(Obj(PairOf(a, b)), v) && found == Collected(Obj(PairOf(a, b)), v) && found == [a, b]
  {
    PairFields(a, b);
    v, found := ReportVisit(PairOf(a, b), "x", a, "y", b);
  }

  lemma SecondThenFirst(a: Object, b: Object) returns (v: Visit, found: seq<Object>)
    requires AllStrings(a) && Own(a) == [a] && AllStrings(b) && Own(b) == [b]
    ensures Visits(Obj(PairOf(a, b)), v) && found == Collected(Obj(PairOf(a, b)), v) && found == [b, a]
  {
    PairFields(a, b);
    v, found := ReportVisit(PairOf(a, b), "y", b, "x", a);
  }

  ghost predicate OthersBarFree(vulns: seq<Object>, s: string) {
    forall v :: v in vulns ==> '|' !in SeverityText(v) || SeverityText(v) == s
  }

  /** Whatever the report, s among its severities does not make the summary depend on map order. */
  ghost predicate Harmless(s: string) {
    forall j, v, w :: Visits(j, v) && Visits(j, w) && OthersBarFree(Collected(j, v), s) ==>
      CountAlike(Collected(j, v), Collected(j, w))
  }

  /** A severity text is harmless exactly when it is safe. */
  lemma HarmlessExactly(s: string)
    ensures Harmless(s) <==> SafeSeverity(s)
  {
    if SafeSeverity(s) {
      forall j, v, w | Visits(j, v) && Visits(j, w) && OthersBarFree(Collected(j, v), s)
        ensures CountAlike(Collected(j, v), Collected(j, w))
      {
        SummaryIndependentOfOrder(j, v, w);
      }
    } else {
      var m, v, found, w, alsoFound := SummaryDependsOnOrder(s);
    }
  }

  // --- the collecting code ---

  class Collector {
    var out: seq<Object>

    constructor ()
      ensures out == []
    {
      out := [];
    }

    method Walk(node: Json) returns (ghost v: Visit)
      modifies this
      ensures Visits(node, v) && out == old(out) + Collected(node, v)
      decreases node, 1
    {
      match node {
        case Obj(_) => v := WalkObject(node);
        case Arr(_) => v := WalkArray(node);
        case _ => v := Leaf;
      }
    }

    method AppendOwn(m: Object)
      modifies this
      ensures out == old(out) + Own(m)
    {
      if LooksLikeVulnerability(m) {
        out := out + [m];
      }
    }

    method WalkObject(node: Json) returns (ghost v: Visit)
      requires node.Obj?
      modifies this
      ensures Visits(node, v) && out == old(out) + Collected(node, v)
      decreases node, 0
    {
      var m := node.fields;
      AppendOwn(m);
      ghost var start := out;
      ghost var order: seq<string>, parts: seq<Visit>, outs: seq<seq<Object>> := [], [], [];
      var left := m.Keys;
      while left != {}
        invariant VisitedBut(m, left, order, parts, outs)
        invariant out == start + Flatten(outs)
        decreases left
      {
        var key :| key in left;
        ghost var before := out;
        ghost var part := Walk(m[key]);
        ghost var collected := Collected(m[key], part);
        AppendCollected(start, outs, before, collected, out);
        VisitedOneMore(m, left, order, parts, outs, key, part);
        order, parts, outs := order + [key], parts + [part], outs + [collected];
        left := left - {key};
      }
      v := Fields(order, parts);
      VisitedAll(m, order, parts, outs);
      Regroup(old(out), Own(m), Flatten(outs));
      assert node == Obj(m);
    }

    method WalkArray(node: Json) returns (ghost v: Visit)
      requires node.Arr?
      modifies this
      ensures Visits(node, v) && out == old(out) + Collected(node, v)
      decreases node, 0
    {
      var items := node.items;
      ghost var parts: seq<Visit>, outs: seq<seq<Object>> := [], [];
      for n := 0 to |items|
        invariant ItemsVisited(items[..n], parts, outs)
        invariant out == old(out) + Flatten(outs)
      {
        ghost var before := out;
        ghost var part := Walk(items[n]);
        ghost var collected := Collected(items[n], part);
        AppendCollected(old(out), outs, before, collected, out);
        ItemsVisitedSnoc(items, n, parts, outs, part);
        parts, outs := parts + [part], outs + [collected];
      }
      assert items[..|items|] == items;
      v := Items(parts);
      CollectedItems(items, parts, outs);
    }
  }

  lemma ItemsVisitedSnoc(items: seq<Json>, n: nat, parts: seq<Visit>, outs: seq<seq<Object>>, part: Visit)
    requires n < |items| && ItemsVisited(items[..n], parts, outs) && Visits(items[n], part)
    ensures ItemsVisited(items[..n + 1], parts + [part], outs + [Collected(items[n], part)])
  {
    assert items[..n + 1] == items[..n] + [items[n]];
  }

  lemma AppendCollected(start: seq<Object>, outs: seq<seq<Object>>, before: seq<Object>, collected: seq<Object>,
                        after: seq<Object>)
    requires before == start + Flatten(outs) && after == before + collected
    ensures after == start + Flatten(outs + [collected])
  {
    assert (outs + [collected])[..|outs|] == outs;
  }

  lemma Regroup(a: seq<Object>, b: seq<Object>, c: seq<Object>)
    ensures (a + b) + c == a + (b + c)
  {
  }

  /** All fields but those in `left` have been visited. */
  ghost predicate VisitedBut(m: Object, left: set<string>, order: seq<string>, parts: seq<Visit>,
                             outs: seq<seq<Object>>) {
    left <= m.Keys && Enumerates(order, m.Keys - left) && FieldsVisited(m, order, parts, outs)
  }

  lemma VisitedOneMore(m: Object, left: set<string>, order: seq<string>, parts: seq<Visit>, outs: seq<seq<Object>>,
                       key: string, part: Visit)
    requires VisitedBut(m, left, order, parts, outs) && key in left && Visits(m[key], part)
    ensures VisitedBut(m, left - {key}, order + [key], parts + [part], outs + [Collected(m[key], part)])
  {
  }

  lemma VisitedAll(m: Object, order: seq<string>, parts: seq<Visit>, outs: seq<seq<Object>>)
    requires VisitedBut(m, {}, order, parts, outs)
    ensures Visits(Obj(m), Fields(order, parts))
    ensures Collected(Obj(m), Fields(order, parts)) == Own(m) + Flatten(outs)
  {
    assert m.Keys - {} == m.Keys;
    CollectedFields(m, order, parts, outs);
  }

  function FindingsOf(vulns: seq<Object>): (findings: seq<Finding>)
    ensures |findings| == |vulns|
  {
    if vulns == [] then [] else FindingsOf(vulns[..|vulns| - 1]) + [FindingOf(vulns[|vulns| - 1])]
  }

  /** Counting the objects is counting the findings made of them. */
  lemma {:induction false} SummariesAgree(vulns: seq<Object>)
    ensures Summarise(FindingSeverity, FindingsOf(vulns)) == Summarise(SeverityOf, vulns)
  {
    if vulns == [] {
    } else {
      SummariesAgree(vulns[..|vulns| - 1]);
      assert FindingsOf(vulns)[..|vulns| - 1] == FindingsOf(vulns[..|vulns| - 1]);
    }
  }

  lemma OneMoreFinding(vulns: seq<Object>, n: nat)
    requires n < |vulns|
    ensures FindingsOf(vulns[..n + 1]) == FindingsOf(vulns[..n]) + [FindingOf(vulns[n])]
    ensures Summarise(SeverityOf, vulns[..n + 1]) == Increment(Summarise(SeverityOf, vulns[..n]), SeverityOf(vulns[n]))
  {
    assert vulns[..n + 1][..n] == vulns[..n];
  }

  /** The findings, and their count. */
  method BuildFindings(vulns: seq<Object>) returns (summary: Summary, findings: seq<Finding>)
    ensures findings == FindingsOf(vulns) && summary == Summarise(FindingSeverity, findings)
    ensures summary == Summarise(SeverityOf, vulns) && Total(summary) == |vulns|
  {
    summary, findings := NO_VULNERABILITIES, [];
    for n := 0 to |vulns|
      invariant findings == FindingsOf(vulns[..n]) && summary == Summarise(SeverityOf, vulns[..n])
    {
      OneMoreFinding(vulns, n);
      summary := Increment(summary, SeverityOf(vulns[n]));
      findings := findings + [FindingOf(vulns[n])];
    }
    assert vulns[..|vulns|] == vulns;
    SummariesAgree(vulns);
    SummaryAddsUp(SeverityOf, vulns);
  }

  /** parseResult on a decoded payload. */
  method ParseResult(payload: Json) returns (summary: Summary, findings: seq<Finding>, ghost v: Visit)
    ensures Visits(payload, v)
    ensures var vulns := Dedupe(DedupeKey, Collected(payload, v));
            && findings == FindingsOf(vulns) && summary == Summarise(SeverityOf, vulns)
    ensures summary == Summarise(FindingSeverity, findings) && Total(summary) == |findings|
  {
    var c := new Collector();
    v := c.Walk(payload);
    assert c.out == Collected(payload, v);
    var vulns := DedupeLoop(DedupeKey, c.out);
    summary, findings := BuildFindings(vulns);
  }
}
