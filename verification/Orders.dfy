/**
 Sorting, as the source uses it through Go's sort package.  The library's algorithm is not
 modelled: what the callers rely on is that the result is sorted and is a permutation, and
 that under a total order this determines the result.
 */
module Orders {
  ghost predicate TotalOrder<T(!new)>(le: (T, T) -> bool) {
    && (forall x, y :: le(x, y) || le(y, x))
    && (forall x, y :: le(x, y) && le(y, x) ==> x == y)
    && (forall x, y, z :: le(x, y) && le(y, z) ==> le(x, z))
  }

  predicate Sorted<T>(le: (T, T) -> bool, s: seq<T>) {
    forall i, j :: 0 <= i < j < |s| ==> le(s[i], s[j])
  }

  function Insert<T(!new)>(le: (T, T) -> bool, x: T, s: seq<T>): (r: seq<T>)
    ensures multiset(r) == multiset{x} + multiset(s)
  {
    if s == [] || le(x, s[0]) then
      [x] + s
    else
      assert s == [s[0]] + s[1..];
      [s[0]] + Insert(le, x, s[1..])
  }

  function Sort<T(!new)>(le: (T, T) -> bool, s: seq<T>): (r: seq<T>)
    ensures multiset(r) == multiset(s)
  {
    if s == [] then [] else
      assert s == [s[0]] + s[1..];
      Insert(le, s[0], Sort(le, s[1..]))
  }

  lemma {:induction false} InsertKeepsSorted<T(!new)>(le: (T, T) -> bool, x: T, s: seq<T>)
    requires TotalOrder(le) && Sorted(le, s)
    ensures Sorted(le, Insert(le, x, s))
  {
    if s == [] {
    } else if le(x, s[0]) {
      assert forall j :: 0 < j < |s| ==> le(s[0], s[j]);
    } else {
      InsertKeepsSorted(le, x, s[1..]);
      var t := Insert(le, x, s[1..]);
      forall j | 0 <= j < |t| ensures le(s[0], t[j]) {
        assert t[j] in multiset(t);
        assert t[j] == x || t[j] in s[1..];
      }
    }
  }

  lemma {:induction false} SortSorts<T(!new)>(le: (T, T) -> bool, s: seq<T>)
    requires TotalOrder(le)
    ensures Sorted(le, Sort(le, s))
  {
    if s == [] {
    } else {
      SortSorts(le, s[1..]);
      InsertKeepsSorted(le, s[0], Sort(le, s[1..]));
    }
  }

  lemma FirstTaken<T>(s: seq<T>)
    requires s != []
    ensures multiset(s[1..]) == multiset(s) - multiset{s[0]} && s[0] in multiset(s)
  {
    assert s == [s[0]] + s[1..];
  }

  lemma FirstIsLeast<T(!new)>(le: (T, T) -> bool, s: seq<T>, x: T)
    requires TotalOrder(le) && Sorted(le, s) && x in multiset(s)
    ensures s != [] && le(s[0], x)
  {
    assert x in s;
  }

  /** A sorted arrangement of a multiset is unique when the order is total. */
  lemma {:induction false} SortedPermutationUnique<T(!new)>(le: (T, T) -> bool, s: seq<T>, t: seq<T>)
    requires TotalOrder(le)
    requires Sorted(le, s) && Sorted(le, t)
    requires multiset(s) == multiset(t)
    ensures s == t
  {
    assert |s| == |multiset(s)| == |multiset(t)| == |t|;
    if s == [] {
    } else {
      FirstTaken(s);
      FirstTaken(t);
      FirstIsLeast(le, s, t[0]);
      FirstIsLeast(le, t, s[0]);
      SortedPermutationUnique(le, s[1..], t[1..]);
      assert s == [s[0]] + s[1..] && t == [t[0]] + t[1..];
    }
  }

  // --- sort.Slice ---

  ghost predicate StrictWeakOrder<T(!new)>(less: (T, T) -> bool) {
    && (forall x, y :: less(x, y) ==> !less(y, x))
    && (forall x, y, z :: !less(x, y) && !less(y, z) ==> !less(x, z))
  }

  ghost predicate InOrder<T>(less: (T, T) -> bool, s: seq<T>) {
    forall i, j :: 0 <= i < j < |s| ==> !less(s[j], s[i])
  }

  /** The first n elements are in order, except that the one at k may belong further left. */
  ghost predicate InOrderBut<T>(less: (T, T) -> bool, s: seq<T>, n: nat, k: nat)
    requires n <= |s|
  {
    forall i, j :: 0 <= i < j < n && j != k ==> !less(s[j], s[i])
  }

  lemma SwapDown<T(!new)>(less: (T, T) -> bool, s: seq<T>, n: nat, k: nat)
    requires StrictWeakOrder(less) && 0 < k < n <= |s|
    requires InOrderBut(less, s, n, k) && less(s[k], s[k - 1])
    ensures InOrderBut(less, s[k := s[k - 1]][k - 1 := s[k]], n, k - 1)
  {
  }

  lemma Settled<T(!new)>(less: (T, T) -> bool, s: seq<T>, n: nat, k: nat)
    requires StrictWeakOrder(less) && k < n <= |s|
    requires InOrderBut(less, s, n, k) && (k == 0 || !less(s[k], s[k - 1]))
    ensures InOrder(less, s[..n])
  {
    forall i | 0 <= i < k ensures !less(s[k], s[i]) {
      if i < k - 1 {
        assert !less(s[k - 1], s[i]);
      }
    }
  }

  method Swap<T>(a: array<T>, k: nat)
    requires 0 < k < a.Length
    modifies a
    ensures a[..] == old(a[..])[k := old(a[k - 1])][k - 1 := old(a[k])]
    ensures multiset(a[..]) == multiset(old(a[..]))
  {
    a[k], a[k - 1] := a[k - 1], a[k];
  }

  method SiftLeft<T(!new)>(a: array<T>, less: (T, T) -> bool, n: nat)
    requires StrictWeakOrder(less) && n < a.Length && InOrder(less, a[..n])
    modifies a
    ensures InOrder(less, a[..n + 1]) && multiset(a[..]) == multiset(old(a[..]))
  {
    var k := n;
    assert InOrderBut(less, a[..], n + 1, n) by {
      assert forall i :: 0 <= i < n ==> a[..n][i] == a[..][i];
    }
    while k > 0 && less(a[k], a[k - 1])
      invariant 0 <= k <= n
      invariant InOrderBut(less, a[..], n + 1, k)
      invariant multiset(a[..]) == multiset(old(a[..]))
    {
      SwapDown(less, a[..], n + 1, k);
      Swap(a, k);
      k := k - 1;
    }
    Settled(less, a[..], n + 1, k);
    assert a[..][..n + 1] == a[..n + 1];
  }

  /** One correct way to sort; insertion, as sort.Slice does for short slices. */
  method SortSlice<T(!new)>(a: array<T>, less: (T, T) -> bool)
    requires StrictWeakOrder(less)
    modifies a
    ensures InOrder(less, a[..]) && multiset(a[..]) == multiset(old(a[..]))
  {
    var n := 0;
    while n < a.Length
      invariant 0 <= n <= a.Length
      invariant InOrder(less, a[..n])
      invariant multiset(a[..]) == multiset(old(a[..]))
    {
      SiftLeft(a, less, n);
      n := n + 1;
    }
    assert a[..n] == a[..];
  }

  // --- what a sort that is not stable still determines ---

  function KeysOf<T, K>(key: T -> K, s: seq<T>): (k: seq<K>)
    ensures |k| == |s| && forall i :: 0 <= i < |s| ==> k[i] == key(s[i])
  {
    if s == [] then [] else KeysOf(key, s[..|s| - 1]) + [key(s[|s| - 1])]
  }

  lemma {:induction false} KeysWithout<T, K>(key: T -> K, s: seq<T>, i: nat)
    requires i < |s|
    ensures multiset(KeysOf(key, s)) == multiset(KeysOf(key, s[..i] + s[i + 1..])) + multiset{key(s[i])}
  {
    var k := KeysOf(key, s);
    assert k == k[..i] + [key(s[i])] + k[i + 1..];
    assert KeysOf(key, s[..i] + s[i + 1..]) == k[..i] + k[i + 1..];
  }

  lemma {:induction false} KeysOfPermutation<T, K>(key: T -> K, s: seq<T>, t: seq<T>)
    requires multiset(s) == multiset(t)
    ensures multiset(KeysOf(key, s)) == multiset(KeysOf(key, t))
  {
    if s == [] {
      assert |t| == |multiset(t)| == 0;
    } else {
      var x := s[|s| - 1];
      assert x in multiset(t);
      var i :| 0 <= i < |t| && t[i] == x;
      var u := t[..i] + t[i + 1..];
      assert t == t[..i] + [x] + t[i + 1..];
      assert s == s[..|s| - 1] + [x];
      assert multiset(u) == multiset(t) - multiset{x} == multiset(s[..|s| - 1]);
      KeysOfPermutation(key, s[..|s| - 1], u);
      KeysWithout(key, t, i);
    }
  }

  /** A comparator that orders by a key fixes the keys of its result, in order. */
  lemma SortedKeysUnique<T(!new), K(!new)>(less: (T, T) -> bool, key: T -> K, le: (K, K) -> bool, s: seq<T>, t: seq<T>)
    requires TotalOrder(le) && forall x, y :: less(x, y) <==> !le(key(y), key(x))
    requires InOrder(less, s) && InOrder(less, t) && multiset(s) == multiset(t)
    ensures KeysOf(key, s) == KeysOf(key, t)
  {
    KeysOfPermutation(key, s, t);
    assert Sorted(le, KeysOf(key, s)) && Sorted(le, KeysOf(key, t));
    SortedPermutationUnique(le, KeysOf(key, s), KeysOf(key, t));
  }

  // --- the byte order on strings used by sort.Strings and by `<` on strings ---

  predicate LexLe(a: string, b: string) {
    a == [] || (b != [] && (a[0] < b[0] || (a[0] == b[0] && LexLe(a[1..], b[1..]))))
  }

  lemma {:induction false} LexTotal(a: string, b: string)
    ensures LexLe(a, b) || LexLe(b, a)
    ensures LexLe(a, b) && LexLe(b, a) ==> a == b
  {
    if a == [] || b == [] {
    } else if a[0] == b[0] {
      LexTotal(a[1..], b[1..]);
      assert a == [a[0]] + a[1..] && b == [b[0]] + b[1..];
    }
  }

  lemma {:induction false} LexTransitive(a: string, b: string, c: string)
    requires LexLe(a, b) && LexLe(b, c)
    ensures LexLe(a, c)
  {
    if a == [] {
    } else if a[0] == b[0] == c[0] {
      LexTransitive(a[1..], b[1..], c[1..]);
    }
  }

  /** Alphabetical: a comes no later than b exactly when it begins b, or is smaller where they first differ. */
  lemma {:induction false} LexLeExactly(a: string, b: string)
    ensures LexLe(a, b) <==> a <= b || exists i :: 0 <= i < |a| && i < |b| && a[..i] == b[..i] && a[i] < b[i]
  {
    if a == [] || b == [] {
    } else if a[0] == b[0] {
      var x, y := a[1..], b[1..];
      LexLeExactly(x, y);
      assert a == [a[0]] + x && b == [b[0]] + y;
      if i :| 0 <= i < |x| && i < |y| && x[..i] == y[..i] && x[i] < y[i] {
        assert a[..i + 1] == [a[0]] + x[..i] && b[..i + 1] == [b[0]] + y[..i];
      }
      if i :| 0 <= i < |a| && i < |b| && a[..i] == b[..i] && a[i] < b[i] {
        assert i > 0 && x[..i - 1] == a[..i][1..] && y[..i - 1] == b[..i][1..];
      }
    } else {
      assert forall i :: 0 < i < |a| && i < |b| ==> a[..i][0] == a[0] && b[..i][0] == b[0];
      assert a[..0] == b[..0];
    }
  }

  lemma LexIsTotalOrder()
    ensures TotalOrder(LexLe)
  {
    forall a, b ensures (LexLe(a, b) || LexLe(b, a)) && (LexLe(a, b) && LexLe(b, a) ==> a == b) {
      LexTotal(a, b);
    }
    forall a, b, c | LexLe(a, b) && LexLe(b, c) ensures LexLe(a, c) {
      LexTransitive(a, b, c);
    }
  }

  predicate StrLess(a: string, b: string) {
    a != b && LexLe(a, b)
  }
}
