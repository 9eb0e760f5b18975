/**
 Dropping duplicates by key and counting severities, as the report parsers do: the first item
 of each key is kept.  `key` and `sev` are read off an item.
 */
module DedupeByKey {
  import opened Counting
  import opened Scanners

  function KeySet<T(==)>(key: T -> string, s: seq<T>): set<string> {
    set x | x in s :: key(x)
  }

  /** The first item of each key. */
  function Dedupe<T(==)>(key: T -> string, s: seq<T>): seq<T> {
    if s == [] then []
    else
      var rest, last := s[..|s| - 1], s[|s| - 1];
      if key(last) in KeySet(key, rest) then Dedupe(key, rest) else Dedupe(key, rest) + [last]
  }

  /** No earlier item has this one's key. */
  predicate IsFirst<T(==)>(key: T -> string, s: seq<T>, i: nat)
    requires i < |s|
  {
    forall k :: 0 <= k < i ==> key(s[k]) != key(s[i])
  }

  /** What is kept, in order: the items whose key no earlier item has. */
  lemma {:induction false} DedupeKeepsFirst<T>(key: T -> string, s: seq<T>) returns (picked: seq<nat>)
    ensures |Dedupe(key, s)| == |picked| && forall i: nat :: i in picked <==> i < |s| && IsFirst(key, s, i)
    ensures forall a, b :: 0 <= a < b < |picked| ==> picked[a] < picked[b]
    ensures forall n :: 0 <= n < |picked| ==> picked[n] < |s| && Dedupe(key, s)[n] == s[picked[n]]
  {
    if s == [] {
      picked := [];
    } else {
      var m := |s| - 1;
      var rest := s[..m];
      picked := DedupeKeepsFirst(key, rest);
      assert forall i :: 0 <= i < m ==> rest[i] == s[i];
      assert forall i :: 0 <= i < m ==> IsFirst(key, rest, i) == IsFirst(key, s, i);
      assert key(s[m]) in KeySet(key, rest) <==> !IsFirst(key, s, m);
      if IsFirst(key, s, m) {
        picked := picked + [m];
      }
    }
  }

  function Increment(s: Summary, sev: Severity): Summary {
    match sev
    case Critical => s.(critical := s.critical + 1)
    case High => s.(high := s.high + 1)
    case Medium => s.(medium := s.medium + 1)
    case Low => s.(low := s.low + 1)
    case Unknown => s.(unknown := s.unknown + 1)
  }

  function Summarise<T>(sev: T -> Severity, s: seq<T>): Summary {
    if s == [] then NO_VULNERABILITIES
    else Increment(Summarise(sev, s[..|s| - 1]), sev(s[|s| - 1]))
  }

  lemma KeySetSnoc<T>(key: T -> string, s: seq<T>)
    requires s != []
    ensures KeySet(key, s) == KeySet(key, s[..|s| - 1]) + {key(s[|s| - 1])}
  {
    var rest, last := s[..|s| - 1], s[|s| - 1];
    assert forall x :: x in s <==> x in rest || x == last;
  }

  /** One item per distinct key. */
  lemma {:induction false} DedupeCounts<T>(key: T -> string, s: seq<T>)
    ensures |Dedupe(key, s)| == |KeySet(key, s)|
  {
    if s == [] {
    } else {
      var rest, k := s[..|s| - 1], key(s[|s| - 1]);
      DedupeCounts(key, rest);
      KeySetSnoc(key, s);
      if k in KeySet(key, rest) {
        assert KeySet(key, rest) + {k} == KeySet(key, rest);
      } else {
        assert |KeySet(key, rest) + {k}| == |KeySet(key, rest)| + 1;
      }
    }
  }

  /** The summary adds up to the number of items. */
  lemma {:induction false} SummaryAddsUp<T>(sev: T -> Severity, s: seq<T>)
    ensures Total(Summarise(sev, s)) == |s|
  {
    if s == [] {
    } else {
      SummaryAddsUp(sev, s[..|s| - 1]);
    }
  }

  function CountOf(s: Summary, sev: Severity): int {
    match sev
    case Critical => s.critical
    case High => s.high
    case Medium => s.medium
    case Low => s.low
    case Unknown => s.unknown
  }

  /** Each severity is counted as often as it occurs. */
  lemma {:induction false} CountedOften<T>(sev: T -> Severity, s: seq<T>, v: Severity)
    ensures CountOf(Summarise(sev, s), v) == Count(s, (x: T) => sev(x) == v)
  {
    if s == [] {
    } else {
      CountedOften(sev, s[..|s| - 1], v);
    }
  }

  /** A severity is counted exactly when some item has it. */
  lemma {:induction false} CountedExactly<T>(sev: T -> Severity, s: seq<T>, v: Severity)
    ensures CountOf(Summarise(sev, s), v) >= 0
    ensures CountOf(Summarise(sev, s), v) > 0 <==> exists i :: 0 <= i < |s| && sev(s[i]) == v
  {
    if s == [] {
    } else {
      var n := |s| - 1;
      CountedExactly(sev, s[..n], v);
      assert forall i :: 0 <= i < n ==> s[..n][i] == s[i];
      if i :| 0 <= i < n && sev(s[i]) == v {
        assert sev(s[..n][i]) == v;
      }
    }
  }

  function Having(keySev: string -> Severity, keys: set<string>, sev: Severity): set<string> {
    set k | k in keys && keySev(k) == sev
  }

  /** The summary as a function of a set of keys alone. */
  function KeySummary(keySev: string -> Severity, keys: set<string>): Summary {
    Summary(|Having(keySev, keys, Critical)|, |Having(keySev, keys, High)|, |Having(keySev, keys, Medium)|,
            |Having(keySev, keys, Low)|, |Having(keySev, keys, Unknown)|)
  }

  lemma HavingAdd(keySev: string -> Severity, keys: set<string>, k: string, sev: Severity)
    requires k !in keys
    ensures |Having(keySev, keys + {k}, sev)| == |Having(keySev, keys, sev)| + if keySev(k) == sev then 1 else 0
  {
    if keySev(k) == sev {
      assert Having(keySev, keys + {k}, sev) == Having(keySev, keys, sev) + {k};
    } else {
      assert Having(keySev, keys + {k}, sev) == Having(keySev, keys, sev);
    }
  }

  lemma KeySummaryAdd(keySev: string -> Severity, keys: set<string>, k: string)
    requires k !in keys
    ensures KeySummary(keySev, keys + {k}) == Increment(KeySummary(keySev, keys), keySev(k))
  {
    HavingAdd(keySev, keys, k, Critical);
    HavingAdd(keySev, keys, k, High);
    HavingAdd(keySev, keys, k, Medium);
    HavingAdd(keySev, keys, k, Low);
    HavingAdd(keySev, keys, k, Unknown);
  }

  /** When an item's key fixes its severity, the summary depends on the keys present and nothing else. */
  lemma {:induction false} SummaryByKeys<T>(key: T -> string, sev: T -> Severity, keySev: string -> Severity, s: seq<T>)
    requires forall x :: x in s ==> keySev(key(x)) == sev(x)
    ensures Summarise(sev, Dedupe(key, s)) == KeySummary(keySev, KeySet(key, s))
  {
    if s == [] {
    } else {
      var rest, last := s[..|s| - 1], s[|s| - 1];
      assert last in s;
      SummaryByKeys(key, sev, keySev, rest);
      KeySetSnoc(key, s);
      if key(last) in KeySet(key, rest) {
        assert KeySet(key, s) == KeySet(key, rest);
      } else {
        KeySummaryAdd(keySev, KeySet(key, rest), key(last));
        assert Dedupe(key, s)[..|Dedupe(key, s)| - 1] == Dedupe(key, rest);
      }
    }
  }

  lemma KeySetsAgree<T>(key: T -> string, a: seq<T>, b: seq<T>)
    requires multiset(a) == multiset(b)
    ensures KeySet(key, a) == KeySet(key, b)
    ensures forall x :: x in a <==> x in b
  {
    assert forall x :: x in a <==> x in multiset(a);
    assert forall x :: x in b <==> x in multiset(b);
  }

  /** Deduplicating the same bag in two orders. */
  lemma OrderIndependent<T>(key: T -> string, sev: T -> Severity, keySev: string -> Severity, a: seq<T>, b: seq<T>)
    requires multiset(a) == multiset(b)
    ensures |Dedupe(key, a)| == |Dedupe(key, b)| == |KeySet(key, a)| == Total(Summarise(sev, Dedupe(key, a)))
    ensures (forall x :: x in a ==> keySev(key(x)) == sev(x)) ==>
              Summarise(sev, Dedupe(key, a)) == Summarise(sev, Dedupe(key, b)) == KeySummary(keySev, KeySet(key, a))
  {
    KeySetsAgree(key, a, b);
    DedupeCounts(key, a);
    DedupeCounts(key, b);
    SummaryAddsUp(sev, Dedupe(key, a));
    if forall x :: x in a ==> keySev(key(x)) == sev(x) {
      SummaryByKeys(key, sev, keySev, a);
      SummaryByKeys(key, sev, keySev, b);
    }
  }

  method DedupeLoop<T(==)>(key: T -> string, s: seq<T>) returns (out: seq<T>)
    ensures out == Dedupe(key, s)
  {
    var seen: set<string> := {};
    out := [];
    for n := 0 to |s|
      invariant seen == KeySet(key, s[..n]) && out == Dedupe(key, s[..n])
    {
      assert s[..n + 1][..n] == s[..n];
      KeySetSnoc(key, s[..n + 1]);
      if key(s[n]) !in seen {
        seen := seen + {key(s[n])};
        out := out + [s[n]];
      }
    }
    assert s[..|s|] == s;
  }

  method SummariseLoop<T>(sev: T -> Severity, s: seq<T>) returns (summary: Summary)
    ensures summary == Summarise(sev, s) && Total(summary) == |s|
  {
    summary := NO_VULNERABILITIES;
    for n := 0 to |s|
      invariant summary == Summarise(sev, s[..n])
    {
      assert s[..n + 1][..n] == s[..n];
      summary := Increment(summary, sev(s[n]));
    }
    assert s[..|s|] == s;
    SummaryAddsUp(sev, s);
  }

  lemma PairDedupes<T>(key: T -> string, sev: T -> Severity, a: T, b: T)
    requires key(a) == key(b)
    ensures Summarise(sev, Dedupe(key, [a, b])) == Increment(NO_VULNERABILITIES, sev(a))
  {
    assert [a, b][..1] == [a] && [a][..0] == [];
    assert KeySet(key, [a]) == {key(a)} by { KeySetSnoc(key, [a]); }
    assert Dedupe(key, [a]) == [a];
  }
}
