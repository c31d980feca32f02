/**
 The router's merge of identity-match answers: the union of eligible packages, the least serve window
 clamped to its range, and each provider's chunks kept whole or dropped whole.
 */
module IdentityMerge {
  import opened Text
  import opened Arrival
  import opened Sorting

  datatype Chunk = Chunk(slotID: string, value: string)

  datatype Response = Response(eligible: seq<string>, window: int, chunks: seq<Chunk>)

  /** What came back from one provider; none when it did not answer. */
  datatype Result = Result(providerID: string, response: Option<Response>, slots: seq<string>)

  datatype Merged = Merged(eligible: seq<string>, window: int, tmpx: map<string, seq<Chunk>>)

  const MIN_SERVE_WINDOW := 1
  const MAX_SERVE_WINDOW := 300

  function Clamp(n: int): (c: int)
    ensures c == if n < 1 then 1 else if n > 300 then 300 else n
  {
    if n < MIN_SERVE_WINDOW then MIN_SERVE_WINDOW else if n > MAX_SERVE_WINDOW then MAX_SERVE_WINDOW else n
  }

  /** The emitted slot ids are a non-empty ordered prefix of the registered ones. */
  ghost predicate SlotsKept(registered: seq<string>, chunks: seq<Chunk>) {
    chunks != [] && seq(|chunks|, i requires 0 <= i < |chunks| => chunks[i].slotID) <= registered
  }

  method EnforceSlotContract(registered: seq<string>, chunks: seq<Chunk>) returns (ok: bool)
    ensures ok <==> SlotsKept(registered, chunks)
    ensures ok <==> 0 < |chunks| <= |registered| && forall i :: 0 <= i < |chunks| ==> chunks[i].slotID == registered[i]
  {
    if |chunks| == 0 || |chunks| > |registered| {
      return false;
    }
    for i := 0 to |chunks|
      invariant forall j :: 0 <= j < i ==> registered[j] == chunks[j].slotID
    {
      if registered[i] != chunks[i].slotID {
        return false;
      }
    }
    return true;
  }

  /** Some provider said yes to the package. */
  ghost predicate Eligible(results: seq<Result>, pkg: string) {
    exists r :: r in results && r.response.Some? && pkg in r.response.value.eligible
  }

  /** The provider's chunks that go into the merged answer, if any. */
  ghost predicate Forwards(results: seq<Result>, id: string, chunks: seq<Chunk>) {
    exists r :: r in results && r.providerID == id && id != "" && Kept(r) && r.response.value.chunks == chunks
  }

  ghost predicate Kept(r: Result) { r.response.Some? && SlotsKept(r.slots, r.response.value.chunks) }

  /** The windows of the answers, in order of arrival. */
  function Windows(results: seq<Result>): seq<int> {
    if results == [] then []
    else
      var last := results[|results| - 1];
      Windows(results[..|results| - 1]) + if last.response.Some? then [last.response.value.window] else []
  }

  /** The running minimum, where a negative number means that there is none yet. */
  function Least(ws: seq<int>): int {
    if ws == [] then -1
    else
      var m := Least(ws[..|ws| - 1]);
      if m < 0 || ws[|ws| - 1] < m then ws[|ws| - 1] else m
  }

  ghost predicate Distinct(results: seq<Result>) {
    && (forall i :: 0 <= i < |results| ==> results[i].providerID != "")
    && (forall i, j :: 0 <= i < j < |results| ==> results[i].providerID != results[j].providerID)
  }

  /** What a merge says, in terms of the answers alone. */
  ghost predicate Says(results: seq<Result>, m: Merged) {
    && Sorted(m.eligible)
    && (forall i, j :: 0 <= i < j < |m.eligible| ==> m.eligible[i] != m.eligible[j])
    && (forall pkg :: pkg in m.eligible <==> Eligible(results, pkg))
    && m.window == Clamp(Least(Windows(results)))
    && (forall id <- m.tmpx :: Forwards(results, id, m.tmpx[id]))
    && (forall id, chunks :: Forwards(results, id, chunks) ==> id in m.tmpx)
  }

  /** The deprecated single value: the first to arrive of a provider that is forwarded with just one chunk. */
  ghost function FirstSingle(results: seq<Result>): string {
    if results == [] then ""
    else
      var so, r := FirstSingle(results[..|results| - 1]), results[|results| - 1];
      if so == "" && r.providerID != "" && r.response.Some? && |r.response.value.chunks| == 1
         && SlotsKept(r.slots, r.response.value.chunks)
      then r.response.value.chunks[0].value else so
  }

  method MergeIdentity(results: seq<Result>) returns (m: Merged, legacy: string)
    ensures Says(results, m)
    ensures legacy == FirstSingle(results)
  {
    legacy := "";
    var eligible: set<string> := {};
    var least := -1;
    var tmpx: map<string, seq<Chunk>> := map[];
    for i := 0 to |results|
      invariant forall pkg :: pkg in eligible <==> Eligible(results[..i], pkg)
      invariant least == Least(Windows(results[..i]))
      invariant forall id <- tmpx :: Forwards(results[..i], id, tmpx[id])
      invariant forall id, chunks :: Forwards(results[..i], id, chunks) ==> id in tmpx
      invariant legacy == FirstSingle(results[..i])
    {
      var r := results[i];
      var so := results[..i];
      assert results[..i + 1] == so + [r] && results[..i + 1][..i] == so;
      forall pkg ensures Eligible(so + [r], pkg) <==> Eligible(so, pkg) || (r.response.Some? && pkg in r.response.value.eligible) {
        OneMoreEligible(so, r, pkg);
      }
      forall id, chunks ensures Forwards(so + [r], id, chunks)
          <==> Forwards(so, id, chunks) || (r.providerID == id && id != "" && Kept(r) && r.response.value.chunks == chunks)
      {
        OneMoreForwards(so, r, id, chunks);
      }
      OneMoreWindow(so, r);
      hide Windows, Least;
      if r.response.None? {
        continue;
      }
      var resp := r.response.value;
      if least < 0 || resp.window < least {
        least := resp.window;
      }
      if |resp.chunks| > 0 && r.providerID != "" {
        var ok := EnforceSlotContract(r.slots, resp.chunks);
        if ok {
          tmpx := tmpx[r.providerID := resp.chunks];
          if legacy == "" && |resp.chunks| == 1 {
            legacy := resp.chunks[0].value;
          }
        }
      }
      eligible := AddAll(eligible, resp.eligible);
    }
    assert results[..|results|] == results;
    var listed := SortSet(eligible);
    m := Merged(listed, Clamp(least), tmpx);
  }

  lemma OneMoreWindow(so: seq<Result>, r: Result)
    ensures Least(Windows(so + [r])) ==
      if r.response.None? then Least(Windows(so))
      else if Least(Windows(so)) < 0 || r.response.value.window < Least(Windows(so)) then r.response.value.window
      else Least(Windows(so))
  {
    assert (so + [r])[..|so|] == so;
    if r.response.Some? {
      LastDecides(Windows(so), r.response.value.window);
    } else {
      assert Windows(so) + [] == Windows(so);
    }
  }

  lemma OneMoreEligible(so: seq<Result>, r: Result, pkg: string)
    ensures Eligible(so + [r], pkg) <==> Eligible(so, pkg) || (r.response.Some? && pkg in r.response.value.eligible)
  {
    assert r in so + [r];
    if q :| q in so && q.response.Some? && pkg in q.response.value.eligible {
      assert q in so + [r];
    }
  }

  lemma OneMoreForwards(so: seq<Result>, r: Result, id: string, chunks: seq<Chunk>)
    ensures Forwards(so + [r], id, chunks)
        <==> Forwards(so, id, chunks) || (r.providerID == id && id != "" && Kept(r) && r.response.value.chunks == chunks)
  {
    assert r in so + [r];
    if q :| q in so && q.providerID == id && id != "" && Kept(q) && q.response.value.chunks == chunks {
      assert q in so + [r];
    }
  }

  method AddAll(s: set<string>, items: seq<string>) returns (all: set<string>)
    ensures forall x :: x in all <==> x in s || x in items
  {
    all := s;
    for i := 0 to |items|
      invariant forall x :: x in all <==> x in s || x in items[..i]
    {
      all := all + {items[i]};
    }
  }

  method SortSet(s: set<string>) returns (sorted: seq<string>)
    ensures Sorted(sorted)
    ensures forall i, j :: 0 <= i < j < |sorted| ==> sorted[i] != sorted[j]
    ensures forall x :: x in sorted <==> x in s
  {
    var list: seq<string> := [];
    var todo := s;
    while todo != {}
      invariant todo <= s && multiset(list) == multiset(s - todo)
      decreases todo
    {
      var x :| x in todo;
      assert s - (todo - {x}) == (s - todo) + {x};
      list, todo := list + [x], todo - {x};
    }
    assert s - todo == s;
    sorted := Sort(list);
    NoRepeats(sorted, s);
  }

  lemma NoRepeats(list: seq<string>, s: set<string>)
    requires multiset(list) == multiset(s)
    ensures forall i, j :: 0 <= i < j < |list| ==> list[i] != list[j]
    ensures forall x :: x in list <==> x in s
  {
    forall x ensures x in list <==> x in s {
      assert x in list <==> x in multiset(list);
    }
    forall i, j | 0 <= i < j < |list| ensures list[i] != list[j] {
      assert list == list[..j] + [list[j]] + list[j + 1..];
      assert list[i] in list[..j];
      assert multiset(list)[list[j]] == 1;
    }
  }

  /** What a merge says, in terms of packages, slots and chunks alone. */
  lemma SaysExactly(results: seq<Result>, m: Merged)
    requires Says(results, m)
    ensures forall pkg :: pkg in m.eligible <==> exists r :: r in results && r.response.Some? && pkg in r.response.value.eligible
    ensures forall id <- m.tmpx ::
              && id != ""
              && exists r ::
                   && r in results && r.providerID == id && r.response.Some? && r.response.value.chunks == m.tmpx[id]
                   && 0 < |m.tmpx[id]| <= |r.slots|
                   && forall i :: 0 <= i < |m.tmpx[id]| ==> m.tmpx[id][i].slotID == r.slots[i]
    ensures forall r |
              && r in results && r.providerID != "" && r.response.Some? && 0 < |r.response.value.chunks| <= |r.slots|
              && (forall i :: 0 <= i < |r.response.value.chunks| ==> r.response.value.chunks[i].slotID == r.slots[i])
              :: r.providerID in m.tmpx
  {
    forall id <- m.tmpx
      ensures id != ""
      ensures exists r ::
                && r in results && r.providerID == id && r.response.Some? && r.response.value.chunks == m.tmpx[id]
                && 0 < |m.tmpx[id]| <= |r.slots|
                && forall i :: 0 <= i < |m.tmpx[id]| ==> m.tmpx[id][i].slotID == r.slots[i]
    {
      assert Forwards(results, id, m.tmpx[id]);
      var r :| r in results && r.providerID == id && id != "" && Kept(r) && r.response.value.chunks == m.tmpx[id];
      SlotsMean(r.slots, m.tmpx[id]);
    }
    forall r |
      && r in results && r.providerID != "" && r.response.Some? && 0 < |r.response.value.chunks| <= |r.slots|
      && (forall i :: 0 <= i < |r.response.value.chunks| ==> r.response.value.chunks[i].slotID == r.slots[i])
      ensures r.providerID in m.tmpx
    {
      SlotsMean(r.slots, r.response.value.chunks);
      assert Forwards(results, r.providerID, r.response.value.chunks);
    }
  }

  lemma SlotsMean(registered: seq<string>, chunks: seq<Chunk>)
    ensures SlotsKept(registered, chunks)
        <==> 0 < |chunks| <= |registered| && forall i :: 0 <= i < |chunks| ==> chunks[i].slotID == registered[i]
  {
    var ids := seq(|chunks|, i requires 0 <= i < |chunks| => chunks[i].slotID);
    if |chunks| <= |registered| {
      assert ids <= registered <==> ids == registered[..|chunks|];
      if ids == registered[..|chunks|] {
        forall i | 0 <= i < |chunks| ensures chunks[i].slotID == registered[i] {
          assert ids[i] == registered[..|chunks|][i];
        }
      }
    }
  }

  /** The deprecated value is the first one that is not empty; later ones do not replace it. */
  lemma {:induction false} FirstSingleExactly(results: seq<Result>)
    ensures FirstSingle(results) == "" <==>
              forall i :: 0 <= i < |results| && results[i].providerID != "" && Kept(results[i])
                          && |results[i].response.value.chunks| == 1
                ==> results[i].response.value.chunks[0].value == ""
    ensures FirstSingle(results) != "" ==>
              exists i :: 0 <= i < |results| && results[i].providerID != "" && Kept(results[i])
                && |results[i].response.value.chunks| == 1
                && results[i].response.value.chunks[0].value == FirstSingle(results)
                && FirstSingle(results[..i]) == ""
  {
    if results != [] {
      var n := |results| - 1;
      FirstSingleExactly(results[..n]);
      assert forall i :: 0 <= i < n ==> results[..n][i] == results[i] && results[..n][..i] == results[..i];
      if FirstSingle(results[..n]) == "" && FirstSingle(results) != "" {
        assert FirstSingle(results[..n]) == "" && results[n].response.value.chunks[0].value == FirstSingle(results);
      } else if FirstSingle(results[..n]) != "" {
        var i :| 0 <= i < n && results[..n][i].providerID != "" && Kept(results[..n][i])
          && |results[..n][i].response.value.chunks| == 1
          && results[..n][i].response.value.chunks[0].value == FirstSingle(results[..n])
          && FirstSingle(results[..n][..i]) == "";
        assert results[i] == results[..n][i] && FirstSingle(results[..i]) == "";
      }
    }
  }

  /** The merged window, where no provider reports a negative one: the least, brought into its range. */
  lemma WindowExactly(results: seq<Result>, m: Merged)
    requires Says(results, m)
    requires forall r :: r in results && r.response.Some? ==> r.response.value.window >= 0
    ensures m.window == 1 <==> (forall r :: r in results ==> r.response.None?)
                               || exists r :: r in results && r.response.Some? && r.response.value.window <= 1
    ensures 1 < m.window < 300 ==>
              && (exists r :: r in results && r.response.Some? && r.response.value.window == m.window)
              && (forall r :: r in results && r.response.Some? ==> m.window <= r.response.value.window)
    ensures m.window == 300 ==> forall r :: r in results && r.response.Some? ==> 300 <= r.response.value.window
    ensures 1 <= m.window <= 300
  {
    WindowsOf(results);
    var ws := Windows(results);
    forall i | 0 <= i < |ws| ensures ws[i] >= 0 {
      assert ws[i] in ws;
    }
    LeastOfNonNegative(ws);
    hide Windows, Least;
    forall r | r in results && r.response.Some? ensures ws != [] && Least(ws) <= r.response.value.window {
      assert r.response.value.window in ws;
    }
    if ws != [] {
      assert Least(ws) in ws;
      var r :| r in results && r.response.Some? && r.response.value.window == Least(ws);
    }
  }

  lemma {:induction false} WindowsOf(results: seq<Result>)
    ensures forall w :: w in Windows(results) <==> exists r :: r in results && r.response.Some? && r.response.value.window == w
  {
    if results != [] {
      var n := |results| - 1;
      WindowsOf(results[..n]);
      assert results == results[..n] + [results[n]];
    }
  }

  // ---- the order of arrival ----

  /** Two strictly sorted lists of the same packages are the same list. */
  lemma SameListing(a: seq<string>, b: seq<string>)
    requires Sorted(a) && Sorted(b)
    requires forall i, j :: 0 <= i < j < |a| ==> a[i] != a[j]
    requires forall i, j :: 0 <= i < j < |b| ==> b[i] != b[j]
    requires forall x :: x in a <==> x in b
    ensures a == b
  {
    OnceEach(a);
    OnceEach(b);
    assert multiset(a) == multiset(b);
    SortedUnique(a, b);
  }

  lemma {:induction false} LeastOfNonNegative(ws: seq<int>)
    requires forall i :: 0 <= i < |ws| ==> ws[i] >= 0
    ensures ws == [] ==> Least(ws) == -1
    ensures ws != [] ==> Least(ws) in ws && Least(ws) >= 0 && forall i :: 0 <= i < |ws| ==> Least(ws) <= ws[i]
  {
    if |ws| > 0 {
      var n := |ws| - 1;
      LeastOfNonNegative(ws[..n]);
      assert ws == ws[..n] + [ws[n]];
    }
  }

  lemma {:induction false} LeastOfSmall(ws: seq<int>)
    requires forall i :: 0 <= i < |ws| ==> ws[i] <= 1
    ensures Least(ws) <= 1
  {
    if |ws| > 0 {
      LeastOfSmall(ws[..|ws| - 1]);
    }
  }

  /** The merged window of these windows in this order. */
  function Window(ws: seq<int>): int { Clamp(Least(ws)) }

  /**
   The merged window does not depend on the order in which windows arrive exactly when no provider reports a
   negative one, or none reports more than the minimum.
   */
  lemma WindowOrderFreeExactly(ws: seq<int>)
    ensures (forall p: seq<int> :: multiset(p) == multiset(ws) ==> Window(p) == Window(ws))
        <==> (forall i :: 0 <= i < |ws| ==> ws[i] >= 0) || (forall i :: 0 <= i < |ws| ==> ws[i] <= 1)
  {
    if (forall i :: 0 <= i < |ws| ==> ws[i] >= 0) || (forall i :: 0 <= i < |ws| ==> ws[i] <= 1) {
      forall p: seq<int> | multiset(p) == multiset(ws) ensures Window(p) == Window(ws) {
        SameWindow(p, ws);
      }
    } else {
      var n :| 0 <= n < |ws| && ws[n] < 0;
      var v :| 0 <= v < |ws| && ws[v] > 1;
      OrderMatters(ws, n, v);
    }
  }

  /** A negative window wipes out what came before it, so it matters whether a large one comes after. */
  lemma OrderMatters(ws: seq<int>, n: nat, v: nat)
    requires n < |ws| && v < |ws| && ws[n] < 0 && ws[v] > 1
    ensures exists p: seq<int> :: multiset(p) == multiset(ws) && Window(p) != Window(ws)
  {
    var rest := TakeOut(ws, n, v);
    PutBack(ws, rest, ws[n], ws[v]);
    PutBack(ws, rest, ws[v], ws[n]);
    EndsOf(rest, ws[n], ws[v]);
  }

  lemma PutBack(ws: seq<int>, rest: seq<int>, x: int, y: int)
    requires multiset(ws) == multiset(rest) + multiset{x} + multiset{y}
    ensures multiset(rest + [x] + [y]) == multiset(ws)
  {
  }

  lemma EndsOf(rest: seq<int>, negative: int, large: int)
    requires negative < 0 && large > 1
    ensures Window(rest + [negative] + [large]) > 1 && Window(rest + [large] + [negative]) == 1
  {
    LastDecides(rest, negative);
    LastDecides(rest + [negative], large);
    LastDecides(rest + [large], negative);
    hide Least;
  }

  lemma LastDecides(ws: seq<int>, w: int)
    ensures Least(ws + [w]) == if Least(ws) < 0 || w < Least(ws) then w else Least(ws)
  {
    assert (ws + [w])[..|ws|] == ws;
  }

  lemma TakeOut(ws: seq<int>, n: nat, v: nat) returns (rest: seq<int>)
    requires n < |ws| && v < |ws| && n != v
    ensures multiset(ws) == multiset(rest) + multiset{ws[n]} + multiset{ws[v]}
  {
    var a, b := if n < v then n else v, if n < v then v else n;
    rest := ws[..a] + ws[a + 1..b] + ws[b + 1..];
    assert ws == ws[..a] + [ws[a]] + ws[a + 1..b] + [ws[b]] + ws[b + 1..];
  }

  lemma SameWindow(p: seq<int>, ws: seq<int>)
    requires multiset(p) == multiset(ws)
    requires (forall i :: 0 <= i < |ws| ==> ws[i] >= 0) || (forall i :: 0 <= i < |ws| ==> ws[i] <= 1)
    ensures Window(p) == Window(ws)
  {
    SameMembers(p, ws);
    forall i | 0 <= i < |p| ensures p[i] in ws {
      assert p[i] in p;
    }
    if forall i :: 0 <= i < |ws| ==> ws[i] >= 0 {
      LeastOfNonNegative(p);
      LeastOfNonNegative(ws);
      if ws != [] {
        assert Least(ws) in p && Least(p) in ws;
      }
    } else {
      LeastOfSmall(p);
      LeastOfSmall(ws);
    }
  }

  /** The windows of two arrival orders are the same but for their order. */
  lemma {:induction false} SameWindows(a: seq<Result>, b: seq<Result>)
    requires multiset(a) == multiset(b)
    ensures multiset(Windows(a)) == multiset(Windows(b))
    decreases |a|
  {
    hide Windows;
    SameMembers(a, b);
    if a != [] {
      var n := |a| - 1;
      var i := TakeLast(a, b);
      SameWindows(a[..n], b[..i] + b[i + 1..]);
      Around(b, i);
      Around(a, n);
      WindowsAppend(b[..i] + [b[i]], b[i + 1..]);
      WindowsAppend(b[..i], [b[i]]);
      WindowsAppend(b[..i], b[i + 1..]);
      WindowsAppend(a[..n], [a[n]]);
      assert a == a[..n] + [a[n]];
    } else {
      assert a == b;
    }
  }

  lemma {:induction false} WindowsAppend(a: seq<Result>, b: seq<Result>)
    ensures Windows(a + b) == Windows(a) + Windows(b)
    decreases |b|
  {
    if b == [] {
      assert a + b == a;
    } else {
      var n := |b| - 1;
      assert (a + b)[..|a + b| - 1] == a + b[..n];
      WindowsAppend(a, b[..n]);
    }
  }

  /** With distinct providers, what is forwarded for one of them is its own chunks. */
  lemma OneForward(results: seq<Result>, id: string, x: seq<Chunk>, y: seq<Chunk>)
    requires Distinct(results) && Forwards(results, id, x) && Forwards(results, id, y)
    ensures x == y
  {
    var r :| r in results && r.providerID == id && id != "" && Kept(r) && r.response.value.chunks == x;
    var q :| q in results && q.providerID == id && id != "" && Kept(q) && q.response.value.chunks == y;
    var i :| 0 <= i < |results| && results[i] == r;
    var j :| 0 <= j < |results| && results[j] == q;
  }

  /**
   Whatever the order in which distinct providers answer, the merge is the same, as long as the windows are
   such that any order gives the same window.
   */
  lemma OrderOfArrivalIrrelevant(a: seq<Result>, b: seq<Result>, m: Merged, n: Merged)
    requires multiset(a) == multiset(b) && Distinct(a)
    requires (forall i :: 0 <= i < |Windows(a)| ==> Windows(a)[i] >= 0) || (forall i :: 0 <= i < |Windows(a)| ==> Windows(a)[i] <= 1)
    requires Says(a, m) && Says(b, n)
    ensures m == n
  {
    SameMembers(a, b);
    SameWindows(a, b);
    SameWindow(Windows(b), Windows(a));
    SameListing(m.eligible, n.eligible);
    forall id ensures id in m.tmpx <==> id in n.tmpx
              ensures id in m.tmpx && id in n.tmpx ==> m.tmpx[id] == n.tmpx[id]
    {
      if id in m.tmpx {
        assert Forwards(b, id, m.tmpx[id]);
      }
      if id in n.tmpx {
        assert Forwards(a, id, n.tmpx[id]);
        OneForward(a, id, m.tmpx[id], n.tmpx[id]);
      }
    }
    assert m.tmpx == n.tmpx;
  }
}
