/** Sums of a weight over a sequence and over the values of a map, and how one change moves them. */
module Sums {

  function Over<T>(s: seq<T>, weigh: T -> nat): nat {
    if s == [] then 0 else Over(s[..|s| - 1], weigh) + weigh(s[|s| - 1])
  }

  lemma {:induction false} OverSnoc<T>(s: seq<T>, x: T, weigh: T -> nat)
    ensures Over(s + [x], weigh) == Over(s, weigh) + weigh(x)
  {
    assert (s + [x])[..|s|] == s;
  }

  lemma {:induction false} OverUpdate<T>(s: seq<T>, i: nat, x: T, weigh: T -> nat)
    requires i < |s|
    ensures Over(s[i := x], weigh) + weigh(s[i]) == Over(s, weigh) + weigh(x)
  {
    var n := |s| - 1;
    if i == n {
      assert s[i := x][..n] == s[..n];
    } else {
      OverUpdate(s[..n], i, x, weigh);
      assert s[i := x][..n] == s[..n][i := x];
    }
  }

  lemma {:induction false} OverAtMost<T>(s: seq<T>, weigh: T -> nat, most: nat)
    requires forall x :: x in s ==> weigh(x) <= most
    ensures Over(s, weigh) <= most * |s|
  {
    if s != [] {
      var n := |s| - 1;
      assert s[n] in s && forall x :: x in s[..n] ==> x in s;
      OverAtMost(s[..n], weigh, most);
      OneMore(most, n);
    }
  }

  lemma {:induction false} OneMore(a: nat, n: nat)
    ensures a * (n + 1) == a * n + a
  {
  }

  ghost function Total<K, V>(m: map<K, V>, weigh: V -> nat): nat {
    if m == map[] then 0
    else
      var k :| k in m;
      weigh(m[k]) + Total(m - {k}, weigh)
  }

  lemma {:induction false} TotalAt<K, V>(m: map<K, V>, k: K, weigh: V -> nat)
    requires k in m
    ensures Total(m, weigh) == weigh(m[k]) + Total(m - {k}, weigh)
    decreases |m|
  {
    var l :| l in m && Total(m, weigh) == weigh(m[l]) + Total(m - {l}, weigh);
    if l != k {
      TotalAt(m - {l}, k, weigh);
      TotalAt(m - {k}, l, weigh);
      assert m - {l} - {k} == m - {k} - {l};
    }
  }

  lemma {:induction false} TotalUpdate<K, V>(m: map<K, V>, k: K, x: V, weigh: V -> nat)
    requires k in m
    ensures Total(m[k := x], weigh) + weigh(m[k]) == Total(m, weigh) + weigh(x)
  {
    TotalAt(m, k, weigh);
    TotalAt(m[k := x], k, weigh);
    assert m[k := x] - {k} == m - {k};
  }

  lemma {:induction false} TotalGrows<K, V>(m: map<K, V>, weigh: V -> nat, more: V -> nat)
    requires forall k :: k in m ==> weigh(m[k]) <= more(m[k])
    ensures Total(m, weigh) <= Total(m, more)
    decreases |m|
  {
    if m != map[] {
      var k :| k in m;
      TotalAt(m, k, weigh);
      TotalAt(m, k, more);
      TotalGrows(m - {k}, weigh, more);
    }
  }
}
