/** Lists that differ only in order: the order in which the answers of a fan-out arrive. */
module Arrival {

  /** The last element of one list stands somewhere in the other; without it they still agree. */
  lemma TakeLast<T>(a: seq<T>, b: seq<T>) returns (i: nat)
    requires a != [] && multiset(a) == multiset(b)
    ensures i < |b| && b[i] == a[|a| - 1]
    ensures multiset(a[..|a| - 1]) == multiset(b[..i] + b[i + 1..])
  {
    var n := |a| - 1;
    assert a == a[..n] + [a[n]];
    assert a[n] in multiset(b);
    i :| 0 <= i < |b| && b[i] == a[n];
    Around(b, i);
  }

  lemma Around<T>(b: seq<T>, i: nat)
    requires i < |b|
    ensures b == b[..i] + [b[i]] + b[i + 1..]
    ensures multiset(b[..i] + b[i + 1..]) == multiset(b) - multiset{b[i]}
  {
    assert b == b[..i] + [b[i]] + b[i + 1..];
    assert multiset(b) == multiset(b[..i]) + multiset{b[i]} + multiset(b[i + 1..]);
  }

  lemma SameMembers<T>(a: seq<T>, b: seq<T>)
    requires multiset(a) == multiset(b)
    ensures |a| == |b| && forall x :: x in a <==> x in b
  {
    assert |a| == |multiset(a)| && |b| == |multiset(b)|;
    forall x ensures x in a <==> x in b {
      assert x in a <==> x in multiset(a);
      assert x in b <==> x in multiset(b);
    }
  }

  lemma {:induction false} OnceEach<T>(a: seq<T>)
    requires forall i, j :: 0 <= i < j < |a| ==> a[i] != a[j]
    ensures forall x :: multiset(a)[x] == if x in a then 1 else 0
  {
    if a != [] {
      var n := |a| - 1;
      OnceEach(a[..n]);
      assert a == a[..n] + [a[n]];
    }
  }

  /** An element at two places counts at least twice. */
  lemma TwiceThere<T>(b: seq<T>, i: nat, j: nat)
    requires i < j < |b| && b[i] == b[j]
    ensures multiset(b)[b[i]] >= 2
  {
    assert b == b[..j] + [b[j]] + b[j + 1..];
    assert b[i] in b[..j];
  }
}
