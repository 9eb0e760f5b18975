/** Counting the elements of a sequence that satisfy a property. */
module Counting {
  function Count<T>(s: seq<T>, f: T -> bool): nat {
    if s == [] then 0
    else Count(s[..|s| - 1], f) + if f(s[|s| - 1]) then 1 else 0
  }

  lemma {:induction false} CountUpdate<T>(s: seq<T>, f: T -> bool, i: nat, x: T)
    requires i < |s|
    ensures Count(s[i := x], f) == Count(s, f) - (if f(s[i]) then 1 else 0) + (if f(x) then 1 else 0)
  {
    var n := |s| - 1;
    if i == n {
      assert s[i := x][..n] == s[..n];
    } else {
      assert s[i := x][..n] == s[..n][i := x];
      CountUpdate(s[..n], f, i, x);
    }
  }

  lemma {:induction false} CountBounds<T>(s: seq<T>, f: T -> bool)
    ensures 0 <= Count(s, f) <= |s|
    ensures Count(s, f) == 0 <==> forall i :: 0 <= i < |s| ==> !f(s[i])
    ensures Count(s, f) == |s| <==> forall i :: 0 <= i < |s| ==> f(s[i])
  {
    if s == [] {
    } else {
      CountBounds(s[..|s| - 1], f);
      assert forall i :: 0 <= i < |s| ==> i == |s| - 1 || s[i] == s[..|s| - 1][i];
    }
  }

  lemma {:induction false} CountImplies<T>(s: seq<T>, f: T -> bool, g: T -> bool)
    requires forall i :: 0 <= i < |s| && f(s[i]) ==> g(s[i])
    ensures Count(s, f) <= Count(s, g)
  {
    if s == [] {
    } else {
      assert forall i :: 0 <= i < |s| - 1 ==> s[..|s| - 1][i] == s[i];
      CountImplies(s[..|s| - 1], f, g);
    }
  }
}
