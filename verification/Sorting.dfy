/** The order in which the Go standard library sorts strings, and what sorting determines. */
module Sorting {
  import opened KeyOrder

  /** Code by code, a prefix first. */
  predicate AtMost(a: string, b: string) { Lex(Codes(a), Codes(b)) <= 0 }

  /** What the order is: by the first character that differs, and a proper prefix first. */
  lemma AtMostExactly(a: string, b: string)
    ensures AtMost(a, b)
        <==> a == b || exists n :: 0 <= n <= |a| && n < |b| && a[..n] == b[..n] && (n < |a| ==> a[n] < b[n])
  {
    CodesExactly(a, b);
    LexAntisymmetric(Codes(a), Codes(b));
    if Codes(a) == Codes(b) {
      CodesInjective(a, b);
    }
    hide Lex;
  }

  lemma TotalOrder(a: string, b: string, c: string)
    ensures AtMost(a, b) || AtMost(b, a)
    ensures AtMost(a, b) && AtMost(b, a) ==> a == b
    ensures AtMost(a, b) && AtMost(b, c) ==> AtMost(a, c)
  {
    LexAntisymmetric(Codes(a), Codes(b));
    LexAntisymmetric(Codes(b), Codes(c));
    if Lex(Codes(a), Codes(b)) == 0 {
      CodesInjective(a, b);
    } else if Lex(Codes(b), Codes(c)) == 0 {
      CodesInjective(b, c);
    } else if AtMost(a, b) && AtMost(b, c) {
      LexTransitive(Codes(a), Codes(b), Codes(c));
    }
  }

  ghost predicate Sorted(s: seq<string>) { forall i, j :: 0 <= i < j < |s| ==> AtMost(s[i], s[j]) }

  /** An element at most all others may be put in front. */
  lemma {:induction false} SortedCons(h: string, t: seq<string>)
    requires Sorted(t) && forall y :: y in t ==> AtMost(h, y)
    ensures Sorted([h] + t)
  {
    forall i, j | 0 <= i < j < |[h] + t| ensures AtMost(([h] + t)[i], ([h] + t)[j]) {
      assert ([h] + t)[j] == t[j - 1];
      assert t[j - 1] in t;
    }
  }

  lemma {:induction false} HeadAtMost(s: seq<string>)
    requires Sorted(s) && s != []
    ensures Sorted(s[1..]) && forall y :: y in s ==> AtMost(s[0], y)
  {
    TotalOrder(s[0], s[0], s[0]);
  }

  lemma {:induction false} InsertFront(x: string, s: seq<string>)
    requires Sorted(s) && s != [] && AtMost(x, s[0])
    ensures Sorted([x] + s)
  {
    HeadAtMost(s);
    forall y | y in s ensures AtMost(x, y) {
      TotalOrder(x, s[0], y);
    }
    SortedCons(x, s);
  }

  lemma {:induction false} InsertAfter(x: string, s: seq<string>, t: seq<string>)
    requires Sorted(s) && s != [] && AtMost(s[0], x)
    requires Sorted(t) && multiset(t) == multiset(s[1..]) + multiset{x}
    ensures Sorted([s[0]] + t)
  {
    HeadAtMost(s);
    forall y | y in t ensures AtMost(s[0], y) {
      assert y in multiset(t);
      assert y == x || y in s[1..];
    }
    SortedCons(s[0], t);
  }

  lemma {:induction false} HeadAndTail(s: seq<string>)
    requires s != []
    ensures multiset(s) == multiset{s[0]} + multiset(s[1..])
    ensures multiset(s[1..]) == multiset(s) - multiset{s[0]}
  {
    assert s == [s[0]] + s[1..];
  }

  function Insert(x: string, s: seq<string>): (r: seq<string>)
    requires Sorted(s)
    ensures multiset(r) == multiset(s) + multiset{x} && |r| == |s| + 1
    ensures Sorted(r)
    decreases |s|
  {
    if s == [] then [x]
    else if AtMost(x, s[0]) then
      (InsertFront(x, s);
       [x] + s)
    else
      (TotalOrder(x, s[0], x);
       HeadAtMost(s);
       HeadAndTail(s);
       var t := Insert(x, s[1..]);
       InsertAfter(x, s, t);
       [s[0]] + t)
  }

  /** The sorted permutation of a list. */
  function Sort(s: seq<string>): (r: seq<string>)
    ensures Sorted(r) && multiset(r) == multiset(s) && |r| == |s|
  {
    if s == [] then []
    else
      assert s == s[..|s| - 1] + [s[|s| - 1]];
      Insert(s[|s| - 1], Sort(s[..|s| - 1]))
  }

  /** Sorting determines a list from its elements and their number. */
  lemma {:induction false} SortedUnique(a: seq<string>, b: seq<string>)
    requires Sorted(a) && Sorted(b) && multiset(a) == multiset(b)
    ensures a == b
    decreases |a|
  {
    hide Sorted, AtMost;
    assert |a| == |multiset(a)| && |b| == |multiset(b)|;
    if a != [] {
      HeadAtMost(a);
      HeadAtMost(b);
      HeadsSame(a, b);
      HeadAndTail(a);
      HeadAndTail(b);
      SortedUnique(a[1..], b[1..]);
      assert a == [a[0]] + a[1..] && b == [b[0]] + b[1..];
    }
  }

  lemma {:induction false} HeadsSame(a: seq<string>, b: seq<string>)
    requires a != [] && b != [] && multiset(a) == multiset(b)
    requires (forall y :: y in a ==> AtMost(a[0], y)) && (forall y :: y in b ==> AtMost(b[0], y))
    ensures a[0] == b[0]
  {
    assert a[0] in multiset(b) && b[0] in multiset(a);
    TotalOrder(a[0], b[0], a[0]);
  }

  /** Two lists have the same sorted form exactly when they hold the same elements equally often. */
  lemma SortExactly(a: seq<string>, b: seq<string>)
    ensures Sort(a) == Sort(b) <==> multiset(a) == multiset(b)
  {
    if multiset(a) == multiset(b) {
      SortedUnique(Sort(a), Sort(b));
    }
  }
}
