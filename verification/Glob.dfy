/**
 The glob matcher of the router's property filter: `*` stands for any sequence of characters,
 `?` for any single one.
 */
module Glob {

  /** The pattern from position `i` matches the subject from position `j`. */
  ghost predicate From(p: string, i: nat, s: string, j: nat)
    requires i <= |p| && j <= |s|
    decreases |p| - i, 0
  {
    if i == |p| then j == |s|
    else if p[i] == '*' then FromAny(p, i + 1, s, j)
    else j < |s| && (p[i] == '?' || p[i] == s[j]) && From(p, i + 1, s, j + 1)
  }

  /** The pattern from position `i` matches the subject from position `j` or a later one. */
  ghost predicate FromAny(p: string, i: nat, s: string, j: nat)
    requires i <= |p|
    decreases |p| - i, 1
  {
    exists k :: j <= k <= |s| && From(p, i, s, k)
  }

  /** The meaning of a pattern, by recursion on the pattern alone. */
  ghost predicate Matches(p: string, s: string) { From(p, 0, s, 0) }

  predicate AllStars(p: string, i: nat) { forall j :: i <= j < |p| ==> p[j] == '*' }

  /** The decision of the matcher's main loop, from one of its states to the end. */
  function Scan(p: string, s: string, px: nat, sx: nat, starPx: int, starSx: int): bool
    requires px <= |p| && sx <= |s|
    requires -1 <= starPx < px && -1 <= starSx <= sx
    decreases |s| - starSx, |p| - px
  {
    if sx == |s| then AllStars(p, px)
    else if px < |p| && (p[px] == '?' || p[px] == s[sx]) then Scan(p, s, px + 1, sx + 1, starPx, starSx)
    else if px < |p| && p[px] == '*' then Scan(p, s, px + 1, sx, px, sx)
    else if starPx >= 0 then Scan(p, s, starPx + 1, starSx + 1, starPx, starSx + 1)
    else false
  }

  /** What the matcher answers. */
  function Decide(p: string, s: string): bool { Scan(p, s, 0, 0, -1, -1) }

  /** The matcher with its single remembered star, and the number of iterations of its main loop. */
  method MatchGlob(pattern: string, s: string) returns (matched: bool, ghost steps: nat)
    ensures matched == Decide(pattern, s)
    ensures '*' !in s ==> (matched <==> Matches(pattern, s))
    ensures steps <= (|pattern| + 1) * (|s| + 2)
  {
    if '*' !in s {
      DecideCorrect(pattern, s);
    }
    steps := 0;
    var px, sx := 0, 0;
    var starPx, starSx := -1, -1;
    while sx < |s|
      invariant 0 <= px <= |pattern| && 0 <= sx <= |s|
      invariant -1 <= starPx < px && -1 <= starSx <= sx
      invariant Scan(pattern, s, px, sx, starPx, starSx) == Decide(pattern, s)
      invariant steps <= Times(|pattern| + 1, starSx + 1) + px
      decreases |s| - starSx, |pattern| - px
    {
      ghost var before := starSx;
      if px < |pattern| && (pattern[px] == '?' || pattern[px] == s[sx]) {
        px := px + 1;
        sx := sx + 1;
      } else if px < |pattern| && pattern[px] == '*' {
        starPx := px;
        starSx := sx;
        px := px + 1;
      } else if starPx >= 0 {
        starSx := starSx + 1;
        sx := starSx;
        px := starPx + 1;
      } else {
        Bounded(|pattern| + 1, starSx + 1, |s|, px, steps);
        return false, steps;
      }
      steps := steps + 1;
      TimesMonotone(|pattern| + 1, before + 1, starSx + 1);
    }
    Bounded(|pattern| + 1, starSx + 1, |s|, px, steps);
    ghost var rest := px;
    while px < |pattern| && pattern[px] == '*'
      invariant rest <= px <= |pattern|
      invariant forall i :: rest <= i < px ==> pattern[i] == '*'
    {
      px := px + 1;
    }
    matched := px == |pattern|;
    assert matched == AllStars(pattern, rest);
  }

  /** Multiplication as repeated addition. */
  ghost function Times(n: nat, k: nat): nat { if k == 0 then 0 else n + Times(n, k - 1) }

  lemma {:induction false} TimesMonotone(n: nat, a: nat, b: nat)
    requires a <= b
    ensures Times(n, a) <= Times(n, b)
    ensures a < b ==> Times(n, a) + n <= Times(n, b)
  {
    if a < b {
      TimesMonotone(n, a, b - 1);
    }
  }

  lemma {:induction false} TimesIsProduct(n: nat, k: nat)
    ensures Times(n, k) == n * k
  {
    if k > 0 {
      TimesIsProduct(n, k - 1);
      assert n * k == n * (k - 1) + n;
    }
  }

  lemma Bounded(n: nat, tried: nat, length: nat, px: nat, steps: nat)
    requires tried <= length + 1 && px <= n && steps <= Times(n, tried) + px
    ensures steps <= n * (length + 2)
  {
    TimesMonotone(n, tried, length + 1);
    TimesIsProduct(n, length + 2);
  }

  // ---- the loop decides the declarative meaning ----

  /** The pattern has no star between positions `i` and `n`. */
  ghost predicate StarFree(p: string, i: nat, n: nat)
    requires n <= |p|
  {
    forall j :: i <= j < n ==> p[j] != '*'
  }

  /** A star-free stretch of the pattern consumes exactly its own length. */
  lemma {:induction false} StretchConsumes(p: string, i: nat, n: nat, s: string, j: nat)
    requires i <= n <= |p| && j <= |s|
    requires StarFree(p, i, n) && From(p, i, s, j)
    ensures j + n - i <= |s| && From(p, n, s, j + n - i)
    decreases n - i
  {
    if i < n {
      StretchConsumes(p, i + 1, n, s, j + 1);
    }
  }

  lemma {:induction false} StretchMatches(p: string, i: nat, n: nat, s: string, j: nat)
    requires i <= n <= |p| && j + n - i <= |s|
    requires StarFree(p, i, n)
    requires forall m :: i <= m < n ==> p[m] == '?' || p[m] == s[m - i + j]
    requires From(p, n, s, j + n - i)
    ensures From(p, i, s, j)
    decreases n - i
  {
    if i < n {
      StretchMatches(p, i + 1, n, s, j + 1);
    }
  }

  lemma {:induction false} MatchesEnd(p: string, i: nat, s: string)
    requires i <= |p|
    ensures From(p, i, s, |s|) <==> AllStars(p, i)
    decreases |p| - i
  {
    if i < |p| {
      MatchesEnd(p, i + 1, s);
      assert AllStars(p, i) <==> p[i] == '*' && AllStars(p, i + 1);
    }
  }

  /** A match of the pattern after the last star at some position beyond the last one tried. */
  ghost predicate Later(p: string, s: string, starPx: int, starSx: int)
    requires -1 <= starPx < |p| && -1 <= starSx <= |s|
  {
    starPx >= 0 && FromAny(p, starPx + 1, s, starSx + 1)
  }

  /** The loop has matched, character by character, what lies between the last star and `px`. */
  ghost predicate Aligned(p: string, s: string, px: nat, sx: nat, starPx: int, starSx: int)
  {
    px <= |p| && sx <= |s| && -1 <= starPx < px && -1 <= starSx <= sx &&
    (starPx < 0 ==> starSx < 0 && px == sx && starPx == -1) &&
    (starPx >= 0 ==> starSx >= 0 && px - starPx - 1 == sx - starSx) &&
    StarFree(p, starPx + 1, px)
  }

  /** The last star only: what an earlier star could still contribute, the last one can too. */
  lemma LastStarSuffices(p: string, s: string, px: nat, sx: nat, starPx: int, starSx: int)
    requires Aligned(p, s, px, sx, starPx, starSx)
    requires px < |p| && p[px] == '*'
    requires Later(p, s, starPx, starSx)
    ensures From(p, px, s, sx)
  {
    var k :| starSx < k <= |s| && From(p, starPx + 1, s, k);
    var reached := k + px - starPx - 1;
    StretchConsumes(p, starPx + 1, px, s, k);
    var m :| reached <= m <= |s| && From(p, px + 1, s, m);
  }

  lemma ScanAtEnd(p: string, s: string, px: nat, starPx: int, starSx: int)
    requires Aligned(p, s, px, |s|, starPx, starSx)
    ensures AllStars(p, px) <==> From(p, px, s, |s|)
    ensures !Later(p, s, starPx, starSx)
  {
    MatchesEnd(p, px, s);
    if Later(p, s, starPx, starSx) {
      var k :| starSx < k <= |s| && From(p, starPx + 1, s, k);
      StretchConsumes(p, starPx + 1, px, s, k);
      assert false;
    }
  }

  lemma StarStep(p: string, s: string, px: nat, sx: nat)
    requires px < |p| && sx <= |s| && p[px] == '*'
    ensures From(p, px, s, sx) <==> From(p, px + 1, s, sx) || Later(p, s, px, sx)
  {
  }

  lemma Retry(p: string, s: string, starPx: nat, starSx: nat)
    requires starPx < |p| && starSx < |s|
    ensures Later(p, s, starPx, starSx) <==> From(p, starPx + 1, s, starSx + 1) || Later(p, s, starPx, starSx + 1)
  {
  }

  /** In every state the loop can be in, it answers whether this or a later placement matches. */
  lemma {:induction false} ScanCorrect(p: string, s: string, px: nat, sx: nat, starPx: int, starSx: int)
    requires '*' !in s && Aligned(p, s, px, sx, starPx, starSx)
    ensures Scan(p, s, px, sx, starPx, starSx) <==> From(p, px, s, sx) || Later(p, s, starPx, starSx)
    decreases |s| - starSx, |p| - px
  {
    hide Later;
    if sx == |s| {
      ScanAtEnd(p, s, px, starPx, starSx);
    } else if px < |p| && (p[px] == '?' || p[px] == s[sx]) {
      ScanCorrect(p, s, px + 1, sx + 1, starPx, starSx);
    } else if px < |p| && p[px] == '*' {
      if Later(p, s, starPx, starSx) {
        LastStarSuffices(p, s, px, sx, starPx, starSx);
      }
      StarStep(p, s, px, sx);
      ScanCorrect(p, s, px + 1, sx, px, sx);
    } else if starPx >= 0 {
      ScanCorrect(p, s, starPx + 1, starSx + 1, starPx, starSx + 1);
      Retry(p, s, starPx, starSx);
    } else {
      NoStar(p, s, starPx, starSx);
    }
  }

  lemma NoStar(p: string, s: string, starPx: int, starSx: int)
    requires starPx == -1 && -1 <= starSx <= |s|
    ensures !Later(p, s, starPx, starSx)
  {
  }

  lemma DecideCorrect(p: string, s: string)
    requires '*' !in s
    ensures Decide(p, s) <==> Matches(p, s)
  {
    ScanCorrect(p, s, 0, 0, -1, -1);
  }

  // ---- what a pattern means, on patterns and subjects as a whole ----

  /** Only what is left of the pattern and of the subject matters. */
  lemma {:induction false} FromShift(p: string, i: nat, q: string, m: nat, s: string, j: nat, t: string, n: nat)
    requires i <= |p| && m <= |q| && j <= |s| && n <= |t| && p[i..] == q[m..] && s[j..] == t[n..]
    ensures From(p, i, s, j) <==> From(q, m, t, n)
    decreases |p| - i
  {
    assert |p| - i == |q| - m && |s| - j == |t| - n;
    if i < |p| {
      assert p[i] == p[i..][0] == q[m..][0] == q[m];
      assert p[i + 1..] == p[i..][1..] == q[m..][1..] == q[m + 1..];
      if p[i] == '*' {
        if FromAny(p, i + 1, s, j) {
          var k :| j <= k <= |s| && From(p, i + 1, s, k);
          assert s[k..] == s[j..][k - j..] == t[n..][k - j..] == t[k - j + n..];
          FromShift(p, i + 1, q, m + 1, s, k, t, k - j + n);
        }
        if FromAny(q, m + 1, t, n) {
          var k :| n <= k <= |t| && From(q, m + 1, t, k);
          assert t[k..] == t[n..][k - n..] == s[j..][k - n..] == s[k - n + j..];
          FromShift(p, i + 1, q, m + 1, s, k - n + j, t, k);
        }
      } else if j < |s| {
        assert s[j] == s[j..][0] == t[n..][0] == t[n];
        assert s[j + 1..] == s[j..][1..] == t[n..][1..] == t[n + 1..];
        FromShift(p, i + 1, q, m + 1, s, j + 1, t, n + 1);
      }
    }
  }

  /** A star stands for any beginning of the subject. */
  lemma StarMeans(p: string, s: string)
    ensures Matches("*" + p, s) <==> exists k :: 0 <= k <= |s| && Matches(p, s[k..])
  {
    var q := "*" + p;
    forall k | 0 <= k <= |s| ensures From(q, 1, s, k) <==> Matches(p, s[k..]) {
      assert q[1..] == p;
      FromShift(q, 1, p, 0, s, k, s[k..], 0);
    }
    if k :| 0 <= k <= |s| && Matches(p, s[k..]) {
      assert From(q, 1, s, k);
    }
    assert From(q, 0, s, 0) <==> FromAny(q, 1, s, 0);
    if FromAny(q, 1, s, 0) {
      var k :| 0 <= k <= |s| && From(q, 1, s, k);
      assert Matches(p, s[k..]);
    }
  }

  /** A question mark stands for any one character, any other character for itself, and nothing for nothing. */
  lemma CharMeans(c: char, p: string, s: string)
    requires c != '*'
    ensures Matches([c] + p, s) <==> s != "" && (c == '?' || c == s[0]) && Matches(p, s[1..])
    ensures Matches("", s) <==> s == ""
  {
    var q := [c] + p;
    if s != "" {
      assert q[1..] == p;
      FromShift(q, 1, p, 0, s, 1, s[1..], 0);
    }
  }

  // ---- and it does so for no other subject ----

  /** While pattern and subject agree, the loop advances both and sets no star. */
  lemma {:induction false} ScanPrefix(p: string, s: string, i: nat, n: nat)
    requires i <= n <= |p| && n <= |s|
    requires forall j :: 0 <= j < n ==> p[j] == s[j]
    ensures Scan(p, s, i, i, -1, -1) == Scan(p, s, n, n, -1, -1)
    decreases n - i
  {
    if i < n {
      ScanPrefix(p, s, i + 1, n);
    }
  }

  /** A pattern the loop gets wrong on a subject whose first `*` is at position `n`. */
  function Misjudged(s: string, n: nat): string
    requires n < |s|
  {
    if n + 1 < |s| then s[..n + 1] else s[..n + 1] + "?"
  }

  lemma MisjudgedWrong(s: string, n: nat)
    requires n < |s| && s[n] == '*' && StarFree(s, 0, n)
    ensures !Decide(Misjudged(s, n), s) && Matches(Misjudged(s, n), s)
  {
    var p := Misjudged(s, n);
    ScanPrefix(p, s, 0, n + 1);
    assert From(p, |p|, s, |s|);
    if n + 1 < |s| {
      assert From(p, n, s, n);
    } else {
      assert From(p, n + 1, s, n);
    }
    StretchMatches(p, 0, n, s, 0);
  }

  lemma {:induction false} FirstStar(s: string) returns (n: nat)
    requires '*' in s
    ensures n < |s| && s[n] == '*' && StarFree(s, 0, n)
  {
    if s[0] == '*' {
      n := 0;
    } else {
      n := FirstStar(s[1..]);
      n := n + 1;
      assert forall j :: 0 < j < n ==> s[j] == s[1..][j - 1];
    }
  }

  /** The matcher is right for every pattern exactly on the subjects without a `*`. */
  lemma CorrectExactlyOnStarFreeSubjects(s: string)
    ensures (forall p :: Decide(p, s) <==> Matches(p, s)) <==> '*' !in s
  {
    if '*' in s {
      var n := FirstStar(s);
      MisjudgedWrong(s, n);
    } else {
      forall p ensures Decide(p, s) <==> Matches(p, s) {
        DecideCorrect(p, s);
      }
    }
  }

  // ---- the caller: a provider's property filter ----

  datatype ProviderFilter = ProviderFilter(
    excludePropertyIDs: seq<string>,
    propertyIDs: seq<string>,
    propertyRIDs: seq<string>,
    propertyTypes: seq<string>)

  /** Some pattern of the list accepts the string, under a given reading of patterns. */
  ghost predicate Some(accepts: (string, string) -> bool, patterns: seq<string>, s: string)
  {
    exists i :: 0 <= i < |patterns| && accepts(patterns[i], s)
  }

  /** A provider takes a property that no exclusion names and every non-empty list admits. */
  ghost predicate Admits(accepts: (string, string) -> bool, id: string, rid: string, kind: string, p: ProviderFilter)
  {
    && !Some(accepts, p.excludePropertyIDs, id)
    && (p.propertyIDs != [] ==> Some(accepts, p.propertyIDs, id))
    && (p.propertyRIDs != [] ==> rid != "" && rid in p.propertyRIDs)
    && (p.propertyTypes != [] ==> kind in p.propertyTypes)
  }

  method AnyMatch(patterns: seq<string>, s: string) returns (found: bool)
    ensures found <==> Some(Decide, patterns, s)
  {
    for i := 0 to |patterns|
      invariant forall j :: 0 <= j < i ==> !Decide(patterns[j], s)
    {
      var m, _ := MatchGlob(patterns[i], s);
      if m {
        return true;
      }
    }
    return false;
  }

  method MatchesProperty(id: string, rid: string, kind: string, p: ProviderFilter) returns (ok: bool)
    ensures ok <==> Admits(Decide, id, rid, kind, p)
    ensures ok <==>
              && (forall q :: q in p.excludePropertyIDs ==> !Decide(q, id))
              && (p.propertyIDs == [] || exists q :: q in p.propertyIDs && Decide(q, id))
              && (p.propertyRIDs == [] || (rid != "" && rid in p.propertyRIDs))
              && (p.propertyTypes == [] || kind in p.propertyTypes)
    ensures '*' !in id ==> (ok <==> Admits((q, s) => Matches(q, s), id, rid, kind, p))
  {
    if '*' !in id {
      forall q ensures Decide(q, id) <==> Matches(q, id) {
        DecideCorrect(q, id);
      }
    }
    var excluded := AnyMatch(p.excludePropertyIDs, id);
    if excluded {
      return false;
    }
    if |p.propertyIDs| > 0 {
      var found := AnyMatch(p.propertyIDs, id);
      if !found {
        return false;
      }
    }
    if |p.propertyRIDs| > 0 {
      if rid == "" || rid !in p.propertyRIDs {
        return false;
      }
    }
    if |p.propertyTypes| > 0 {
      if kind !in p.propertyTypes {
        return false;
      }
    }
    return true;
  }
}
