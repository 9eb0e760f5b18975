/** Searching, splitting and printing text, as strings.Index, strings.SplitN and %d do. */
module Text {
  import opened Wrappers

  /** Position of the first c, or -1. */
  function IndexOf(s: string, c: char): (r: int)
    ensures -1 <= r < |s|
    ensures r == -1 <==> c !in s
    ensures r >= 0 ==> s[r] == c && c !in s[..r]
  {
    if s == [] then -1
    else if s[0] == c then 0
    else
      var k := IndexOf(s[1..], c);
      assert k >= 0 ==> s[..k + 1] == [s[0]] + s[1..][..k];
      if k == -1 then -1 else k + 1
  }

  function Join(a: string, c: char, b: string): string {
    a + [c] + b
  }

  /** The first separator of a + [c] + b is the one written, when a has none. */
  lemma {:induction false} IndexOfJoin(a: string, c: char, b: string)
    requires c !in a
    ensures IndexOf(Join(a, c, b), c) == |a|
  {
    if a == [] {
    } else {
      assert Join(a, c, b)[1..] == Join(a[1..], c, b);
      IndexOfJoin(a[1..], c, b);
    }
  }

  /** Two texts cut at a separator that neither head contains agree piecewise. */
  lemma SplitUnique(a: string, b: string, c: char, x: string, y: string)
    requires c !in a && c !in b
    requires Join(a, c, x) == Join(b, c, y)
    ensures a == b && x == y
  {
    IndexOfJoin(a, c, x);
    IndexOfJoin(b, c, y);
    assert Join(a, c, x)[..|a|] == a && Join(b, c, y)[..|b|] == b;
    assert Join(a, c, x)[|a| + 1..] == x && Join(b, c, y)[|b| + 1..] == y;
  }

  lemma NoneLater(a: string, c: char, x: string)
    requires c !in x
    ensures var s := Join(a, c, x); s[|a|] == c && forall i :: |a| < i < |s| ==> s[i] != c
  {
    var s := Join(a, c, x);
    forall i | |a| < i < |s| ensures s[i] != c {
      assert s[i] == x[i - |a| - 1];
    }
  }

  /** ... and so do two texts cut at a separator that neither tail contains. */
  lemma SplitUniqueLast(a: string, b: string, c: char, x: string, y: string)
    requires c !in x && c !in y
    requires Join(a, c, x) == Join(b, c, y)
    ensures a == b && x == y
  {
    var s, t := Join(a, c, x), Join(b, c, y);
    NoneLater(a, c, x);
    NoneLater(b, c, y);
    assert s[..|a|] == a && t[..|b|] == b;
    assert s[|a| + 1..] == x && t[|b| + 1..] == y;
  }

  /** The text after the last bar. */
  function AfterLastBar(s: string): string {
    if s == [] || s[|s| - 1] == '|' then [] else AfterLastBar(s[..|s| - 1]) + [s[|s| - 1]]
  }

  lemma {:induction false} AfterLastBarOf(a: string, b: string)
    requires '|' !in b
    ensures AfterLastBar(a + "|" + b) == b
  {
    var s := a + "|" + b;
    if b == [] {
      assert s[|s| - 1] == '|';
    } else {
      assert s[..|s| - 1] == a + "|" + b[..|b| - 1];
      AfterLastBarOf(a, b[..|b| - 1]);
    }
  }

  lemma MoveBar(a: string, b: string, c: string, rest: string)
    ensures Join(a, '|', Join(Join(b, '|', c), '|', rest)) == Join(Join(a, '|', b), '|', Join(c, '|', rest))
  {
  }

  lemma BarSplits(s: string) returns (a: string, b: string)
    requires '|' in s
    ensures s == Join(a, '|', b)
  {
    var i := IndexOf(s, '|');
    a, b := s[..i], s[i + 1..];
    assert s == s[..i] + [s[i]] + s[i + 1..];
  }

  /** Only the text from some bar on matters. */
  lemma {:induction false} AfterLastBarWithin(a: string, b: string)
    requires '|' in b
    ensures AfterLastBar(a + b) == AfterLastBar(b)
  {
    var n := |b| - 1;
    assert (a + b)[|a + b| - 1] == b[n];
    if b[n] == '|' {
    } else {
      assert (a + b)[..|a + b| - 1] == a + b[..n];
      assert b == b[..n] + [b[n]];
      AfterLastBarWithin(a, b[..n]);
    }
  }

  lemma {:induction false} LastBarSplits(s: string) returns (head: string)
    requires '|' in s
    ensures s == head + "|" + AfterLastBar(s) && '|' !in AfterLastBar(s)
  {
    var n := |s| - 1;
    assert s == s[..n] + [s[n]];
    if s[n] == '|' {
      head := s[..n];
    } else {
      head := LastBarSplits(s[..n]);
    }
  }

  // --- decimal integers ---

  function Digit(d: nat): char
    requires d < 10
  {
    '0' + d as char
  }

  function PrintNat(n: nat): (s: string)
    ensures s != []
    ensures forall i :: 0 <= i < |s| ==> '0' <= s[i] <= '9'
  {
    if n < 10 then [Digit(n)] else PrintNat(n / 10) + [Digit(n % 10)]
  }

  /** What %d writes for an int. */
  function PrintInt(n: int): (s: string)
    ensures s != []
    ensures forall i :: 0 <= i < |s| ==> s[i] == '-' || '0' <= s[i] <= '9'
  {
    if n < 0 then "-" + PrintNat(-n) else PrintNat(n)
  }

  function ReadNat(s: string): Option<nat> {
    if s == [] then None
    else
      var c := s[|s| - 1];
      if !('0' <= c <= '9') then None
      else
        var d := c as int - '0' as int;
        if |s| == 1 then Some(d)
        else match ReadNat(s[..|s| - 1])
             case None => None
             case Some(n) => Some(10 * n + d)
  }

  const MAX_INT64: int := 0x7FFF_FFFF_FFFF_FFFF
  const MIN_INT64: int := -0x8000_0000_0000_0000

  /** strconv.ParseInt(s, 10, 64): an optional sign, digits, and a 64-bit range check. */
  function ParseInt64(s: string): Option<int> {
    if s == [] then None
    else
      var signed := s[0] == '-' || s[0] == '+';
      match ReadNat(if signed then s[1..] else s)
      case None => None
      case Some(n) =>
        var v := if s[0] == '-' then 0 - n else n as int;
        if MIN_INT64 <= v <= MAX_INT64 then Some(v) else None
  }

  lemma {:induction false} ReadPrintNat(n: nat)
    ensures ReadNat(PrintNat(n)) == Some(n)
  {
    if n < 10 {
    } else {
      ReadPrintNat(n / 10);
      var s := PrintNat(n);
      assert s[..|s| - 1] == PrintNat(n / 10);
    }
  }

  lemma ParsePrintInt(n: int)
    requires MIN_INT64 <= n <= MAX_INT64
    ensures ParseInt64(PrintInt(n)) == Some(n)
  {
    ReadPrintNat(if n < 0 then -n else n);
    if n < 0 {
      assert PrintInt(n)[1..] == PrintNat(-n);
    }
  }

  lemma PrintIntInjective(m: int, n: int)
    requires PrintInt(m) == PrintInt(n)
    ensures m == n
  {
    ReadPrintNat(if m < 0 then -m else m);
    ReadPrintNat(if n < 0 then -n else n);
    assert m < 0 <==> PrintInt(m)[0] == '-';
    assert n < 0 <==> PrintInt(n)[0] == '-';
    if m < 0 {
      assert PrintInt(m)[1..] == PrintNat(-m) && PrintInt(n)[1..] == PrintNat(-n);
    }
  }
}
