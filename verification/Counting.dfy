/** Counting the elements of a sequence that satisfy a predicate, and totalling a map. */
module Counting {

  function HowMany<T>(s: seq<T>, f: T -> bool): nat {
    if s == [] then 0
    else HowMany(s[..|s| - 1], f) + (if f(s[|s| - 1]) then 1 else 0)
  }

  lemma OneMore<T>(s: seq<T>, x: T, f: T -> bool)
    ensures HowMany(s + [x], f) == HowMany(s, f) + (if f(x) then 1 else 0)
  {
    assert (s + [x])[..|s|] == s;
  }

  lemma {:induction false} OneInFront<T>(s: seq<T>, f: T -> bool)
    requires s != []
    ensures HowMany(s, f) == (if f(s[0]) then 1 else 0) + HowMany(s[1..], f)
  {
    if |s| > 1 {
      OneInFront(s[..|s| - 1], f);
      assert s[..|s| - 1][1..] == s[1..][..|s| - 2];
    }
  }

  lemma {:induction false} OneChanged<T>(s: seq<T>, i: nat, x: T, f: T -> bool)
    requires i < |s|
    ensures HowMany(s[i := x], f) == HowMany(s, f) - (if f(s[i]) then 1 else 0) + (if f(x) then 1 else 0)
  {
    var last := |s| - 1;
    if i == last {
      assert s[i := x][..last] == s[..last];
    } else {
      assert s[i := x][..last] == s[..last][i := x];
      OneChanged(s[..last], i, x, f);
    }
  }

  lemma {:induction false} NoneLeft<T>(s: seq<T>, f: T -> bool)
    ensures HowMany(s, f) == 0 <==> forall i :: 0 <= i < |s| ==> !f(s[i])
  {
    if s != [] {
      NoneLeft(s[..|s| - 1], f);
      assert forall i :: 0 <= i < |s| - 1 ==> s[..|s| - 1][i] == s[i];
    }
  }

  lemma {:induction false} Included<T>(s: seq<T>, f: T -> bool, g: T -> bool)
    requires forall i :: 0 <= i < |s| && f(s[i]) ==> g(s[i])
    ensures HowMany(s, f) <= HowMany(s, g)
  {
    if s != [] {
      Included(s[..|s| - 1], f, g);
    }
  }

  lemma {:induction false} Split<T>(s: seq<T>, whole: T -> bool, f: T -> bool, g: T -> bool)
    requires forall i :: 0 <= i < |s| ==> !(f(s[i]) && g(s[i])) && (whole(s[i]) <==> f(s[i]) || g(s[i]))
    ensures HowMany(s, whole) == HowMany(s, f) + HowMany(s, g)
  {
    if s != [] {
      Split(s[..|s| - 1], whole, f, g);
    }
  }

  ghost function Total<K>(m: map<K, int>): int
    decreases |m|
  {
    if m == map[] then 0
    else
      var k :| k in m;
      assert |m - {k}| < |m| by { Smaller(m, k); }
      m[k] + Total(m - {k})
  }

  lemma Smaller<K>(m: map<K, int>, k: K)
    requires k in m
    ensures |m - {k}| == |m| - 1
  {
    assert (m - {k}).Keys == m.Keys - {k};
    assert |m.Keys - {k}| == |m.Keys| - 1;
  }

  lemma {:induction false} TotalWithout<K>(m: map<K, int>, k: K)
    requires k in m
    ensures Total(m) == m[k] + Total(m - {k})
    decreases |m|
  {
    var j :| j in m && Total(m) == m[j] + Total(m - {j});
    if j != k {
      Smaller(m, j);
      Smaller(m, k);
      TotalWithout(m - {j}, k);
      TotalWithout(m - {k}, j);
      assert m - {j} - {k} == m - {k} - {j};
    }
  }
}
