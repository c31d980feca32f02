/**
 AdCP release versions: reading them, ordering them with prereleases below their release, and choosing the
 version to serve from the supported ones.
 */
module Version {
  import opened Text
  import opened KeyOrder

  datatype Release = Release(major: int, minor: int, prerelease: string, version: string)

  // ---- reading ----

  predicate IsSpace(c: char) {
    var n := c as int;
    9 <= n <= 13 || n == 0x20 || n == 0x85 || n == 0xA0 || n == 0x1680 || 0x2000 <= n <= 0x200A
    || n == 0x2028 || n == 0x2029 || n == 0x202F || n == 0x205F || n == 0x3000
  }

  function TrimSpace(s: string): string
    decreases |s|
  {
    if s == "" then s
    else if IsSpace(s[0]) then TrimSpace(s[1..])
    else if IsSpace(s[|s| - 1]) then TrimSpace(s[..|s| - 1])
    else s
  }

  function ParseNonNegative(s: string): Option<int> {
    if s == "" then None
    else match Atoi(s)
      case None => None
      case Some(n) => if n < 0 then None else Some(n)
  }

  predicate PrereleaseChar(c: char) { '0' <= c <= '9' || 'A' <= c <= 'Z' || 'a' <= c <= 'z' || c == '-' }

  predicate ValidPart(p: string) { p != "" && forall i :: 0 <= i < |p| ==> PrereleaseChar(p[i]) }

  predicate ValidPrerelease(s: string) {
    var parts := Split(s, '.');
    forall i :: 0 <= i < |parts| ==> ValidPart(parts[i])
  }

  /** The wire form: major and minor, and the prerelease if there is one. */
  function Print(major: int, minor: int, prerelease: string): string {
    PrintInt(major) + "." + PrintInt(minor) + if prerelease == "" then "" else "-" + prerelease
  }

  function ParseRelease(version: string): Option<Release> {
    var trimmed := TrimSpace(version);
    if trimmed == "" then None
    else
      var (plain, _, _) := Cut(trimmed, '+');
      var (core, prerelease, _) := Cut(plain, '-');
      var parts := Split(core, '.');
      if |parts| != 2 && |parts| != 3 then None
      else
        var major, minor := ParseNonNegative(parts[0]), ParseNonNegative(parts[1]);
        if major.None? || minor.None? then None
        else if |parts| == 3 && ParseNonNegative(parts[2]).None? then None
        else if prerelease != "" && !ValidPrerelease(prerelease) then None
        else Some(Release(major.value, minor.value, prerelease, Print(major.value, minor.value, prerelease)))
  }

  /** What reading produces: numbers in range, a valid prerelease, and the wire form of both. */
  ghost predicate Normal(r: Release) {
    && 0 <= r.major <= MAX_INT64 && 0 <= r.minor <= MAX_INT64
    && (r.prerelease == "" || ValidPrerelease(r.prerelease))
    && r.version == Print(r.major, r.minor, r.prerelease)
  }

  lemma ParsedIsNormal(version: string)
    ensures ParseRelease(version).Some? ==> Normal(ParseRelease(version).value)
  {
  }

  lemma {:induction false} PartsClean(s: string)
    requires ValidPrerelease(s)
    ensures s != "" && forall i :: 0 <= i < |s| ==> PrereleaseChar(s[i]) || s[i] == '.'
    decreases |s|
  {
    var k := Find(s, '.');
    var parts := Split(s, '.');
    if k == |s| {
      assert ValidPart(parts[0]);
    } else {
      var tail := Split(s[k + 1..], '.');
      assert parts == [s[..k]] + tail;
      assert ValidPart(parts[0]);
      forall i | 0 <= i < |tail| ensures ValidPart(tail[i]) {
        assert tail[i] == parts[i + 1];
      }
      PartsClean(s[k + 1..]);
      forall i | 0 <= i < |s| ensures PrereleaseChar(s[i]) || s[i] == '.' {
        if i > k {
          assert s[i] == s[k + 1..][i - k - 1];
        } else if i < k {
          assert s[i] == s[..k][i];
        }
      }
    }
  }

  lemma DigitsFree(n: nat, c: char)
    requires !IsDigit(c)
    ensures c !in PrintNat(n)
  {
  }

  /** The printed core reads back as its two numbers. */
  lemma CoreParts(major: nat, minor: nat)
    requires major <= MAX_INT64 && minor <= MAX_INT64
    ensures Split(PrintInt(major) + "." + PrintInt(minor), '.') == [PrintInt(major), PrintInt(minor)]
    ensures ParseNonNegative(PrintInt(major)) == Some(major) && ParseNonNegative(PrintInt(minor)) == Some(minor)
  {
    DigitsFree(major, '.');
    DigitsFree(minor, '.');
    SplitCons(PrintInt(major), PrintInt(minor), '.');
    FindInConcat(PrintInt(minor), "", '.');
    assert PrintInt(minor) + "" == PrintInt(minor);
    AtoiPrint(major);
    AtoiPrint(minor);
  }

  lemma CoreFree(major: nat, minor: nat, c: char)
    requires !IsDigit(c) && c != '.'
    ensures c !in PrintInt(major) + "." + PrintInt(minor)
  {
    DigitsFree(major, c);
    DigitsFree(minor, c);
  }

  lemma CoreEnds(major: nat, minor: nat)
    ensures var core := PrintInt(major) + "." + PrintInt(minor); IsDigit(core[0]) && IsDigit(core[|core| - 1])
  {
    var m, n := PrintInt(major), PrintInt(minor);
    assert IsDigit(m[0]) && IsDigit(n[|n| - 1]);
    hide PrintInt;
    assert (m + "." + n)[0] == m[0] && (m + "." + n)[|m + "." + n| - 1] == n[|n| - 1];
  }

  lemma Untrimmed(s: string)
    requires s != "" && !IsSpace(s[0]) && !IsSpace(s[|s| - 1])
    ensures TrimSpace(s) == s
  {
  }

  /** Nothing at the ends of a wire form is trimmed, and it has no build part. */
  lemma PrintedIsPlain(r: Release)
    requires Normal(r)
    ensures TrimSpace(r.version) == r.version && r.version != "" && '+' !in r.version
  {
    var core := PrintInt(r.major) + "." + PrintInt(r.minor);
    CoreFree(r.major, r.minor, '+');
    CoreEnds(r.major, r.minor);
    hide PrintInt, TrimSpace;
    if r.prerelease != "" {
      PartsClean(r.prerelease);
      hide ValidPrerelease;
      assert r.version == core + ("-" + r.prerelease);
      assert r.version[|r.version| - 1] == r.prerelease[|r.prerelease| - 1];
    } else {
      assert r.version == core;
    }
    Untrimmed(r.version);
  }

  /** Reading a wire form gives back exactly the release it was printed from. */
  lemma ReadBack(r: Release)
    requires Normal(r)
    ensures ParseRelease(r.version) == Some(r)
  {
    hide PrintInt, Split, ValidPrerelease, TrimSpace, Cut, ParseNonNegative;
    var core := PrintInt(r.major) + "." + PrintInt(r.minor);
    PrintedIsPlain(r);
    CutNone(r.version, '+');
    CoreFree(r.major, r.minor, '-');
    CoreParts(r.major, r.minor);
    if r.prerelease != "" {
      assert r.version == core + ['-'] + r.prerelease;
      CutAt(core, r.prerelease, '-');
    } else {
      assert r.version == core;
      CutNone(core, '-');
    }
  }

  // ---- which versions are read ----

  /** White space as Unicode has it. */
  lemma SpaceExactly(c: char)
    ensures IsSpace(c) <==>
              c as int in {9, 10, 11, 12, 13, 0x20, 0x85, 0xA0, 0x1680, 0x2028, 0x2029, 0x202F, 0x205F, 0x3000}
              || 0x2000 <= c as int <= 0x200A
  {
  }

  /** Trimming takes white space off both ends, all of it. */
  lemma {:induction false} TrimExactly(s: string) returns (i: nat, j: nat)
    ensures i <= j <= |s| && TrimSpace(s) == s[i..j]
    ensures forall k :: 0 <= k < |s| && !(i <= k < j) ==> IsSpace(s[k])
    ensures i < j ==> !IsSpace(s[i]) && !IsSpace(s[j - 1])
    decreases |s|
  {
    if s == "" {
      i, j := 0, 0;
    } else if IsSpace(s[0]) {
      i, j := TrimExactly(s[1..]);
      assert forall k :: 0 < k < |s| ==> s[k] == s[1..][k - 1];
      i, j := i + 1, j + 1;
    } else if IsSpace(s[|s| - 1]) {
      i, j := TrimExactly(s[..|s| - 1]);
    } else {
      i, j := 0, |s|;
    }
  }

  /** A prerelease: letters, digits and hyphens, in parts that are not empty, with dots between them. */
  lemma {:induction false} PrereleaseExactly(s: string)
    ensures ValidPrerelease(s) <==>
              && s != "" && s[0] != '.' && s[|s| - 1] != '.'
              && (forall i :: 0 < i < |s| ==> s[i - 1] != '.' || s[i] != '.')
              && (forall i :: 0 <= i < |s| ==> '0' <= s[i] <= '9' || 'A' <= s[i] <= 'Z' || 'a' <= s[i] <= 'z' || s[i] in "-.")
    decreases |s|
  {
    var k := Find(s, '.');
    var parts := Split(s, '.');
    assert forall i :: 0 <= i < k ==> s[i] == s[..k][i];
    if k == |s| {
      assert parts == [s];
      assert forall i :: 0 <= i < |parts| ==> parts[i] == s;
      assert ValidPart(parts[0]) <==> ValidPart(s);
    } else {
      var tail := s[k + 1..];
      assert forall i :: k < i < |s| ==> s[i] == tail[i - k - 1];
      PrereleaseExactly(tail);
      assert parts == [s[..k]] + Split(tail, '.');
      AllValidCons(s[..k], Split(tail, '.'));
      hide ValidPrerelease, Split;
      PrereleaseJoin(s, k);
    }
  }

  lemma AllValidCons(head: string, tail: seq<string>)
    ensures (forall i :: 0 <= i < |[head] + tail| ==> ValidPart(([head] + tail)[i]))
        <==> ValidPart(head) && forall i :: 0 <= i < |tail| ==> ValidPart(tail[i])
  {
    var all := [head] + tail;
    assert all[0] == head && forall i :: 0 <= i < |tail| ==> tail[i] == all[i + 1];
    assert forall i :: 0 < i < |all| ==> all[i] == tail[i - 1];
  }

  lemma PrereleaseJoin(s: string, k: nat)
    requires k < |s| && s[k] == '.' && '.' !in s[..k]
    ensures (&& s != "" && s[0] != '.' && s[|s| - 1] != '.'
             && (forall i :: 0 < i < |s| ==> s[i - 1] != '.' || s[i] != '.')
             && (forall i :: 0 <= i < |s| ==> '0' <= s[i] <= '9' || 'A' <= s[i] <= 'Z' || 'a' <= s[i] <= 'z' || s[i] in "-."))
        <==> (var tail := s[k + 1..];
              && ValidPart(s[..k]) && tail != "" && tail[0] != '.' && tail[|tail| - 1] != '.'
              && (forall i :: 0 < i < |tail| ==> tail[i - 1] != '.' || tail[i] != '.')
              && (forall i :: 0 <= i < |tail| ==> '0' <= tail[i] <= '9' || 'A' <= tail[i] <= 'Z' || 'a' <= tail[i] <= 'z' || tail[i] in "-."))
  {
    var tail := s[k + 1..];
    assert forall i :: 0 <= i < |tail| ==> tail[i] == s[i + k + 1];
    assert forall i :: k < i < |s| ==> s[i] == tail[i - k - 1];
    assert forall i :: 0 <= i < k ==> s[..k][i] == s[i];
  }

  lemma DigitsRead(s: string)
    requires s != "" && AllDigits(s)
    ensures ParseNonNegative(s) == if NatValue(s) <= MAX_INT64 then Some(NatValue(s)) else None
    ensures '.' !in s && '-' !in s && '+' !in s
  {
    AtoiExactly(s);
  }

  /** A part of a core is read only if it is digits: signs are cut off with the prerelease and the build. */
  lemma ReadDigits(s: string)
    requires ParseNonNegative(s).Some? && '+' !in s && '-' !in s
    ensures s != "" && AllDigits(s) && NatValue(s) <= MAX_INT64
  {
    AtoiSome(s);
    var digits :| digits != "" && AllDigits(digits) && (s == digits || s == "+" + digits || s == "-" + digits);
    assert s[0] in s;
    AtoiExactly(digits);
  }

  /** The text of a version from its pieces. */
  function Spelled(core: seq<string>, prerelease: Option<string>, build: Option<string>): string {
    Join(core, '.') + (if prerelease.Some? then "-" + prerelease.value else "")
    + (if build.Some? then "+" + build.value else "")
  }

  /** The three cuts of a version find its pieces. */
  lemma CutPieces(core: seq<string>, prerelease: Option<string>, build: Option<string>)
    requires core != [] && FreeOf(core, '.') && FreeOf(core, '-') && FreeOf(core, '+')
    requires prerelease.Some? ==> '+' !in prerelease.value
    ensures var (plain, _, _) := Cut(Spelled(core, prerelease, build), '+');
            var (c, p, _) := Cut(plain, '-');
            Split(c, '.') == core && p == if prerelease.Some? then prerelease.value else ""
  {
    hide Join, Split, Cut;
    var c := Join(core, '.');
    JoinFree(core, '.', '-');
    JoinFree(core, '.', '+');
    SplitJoin(core, '.');
    var plain := c + if prerelease.Some? then "-" + prerelease.value else "";
    assert '+' !in plain;
    var s := Spelled(core, prerelease, build);
    if build.Some? {
      assert s == plain + ['+'] + build.value;
      CutAt(plain, build.value, '+');
    } else {
      assert s == plain;
      CutNone(plain, '+');
    }
    if prerelease.Some? {
      assert plain == c + ['-'] + prerelease.value;
      CutAt(c, prerelease.value, '-');
    } else {
      assert plain == c;
      CutNone(c, '-');
    }
  }

  lemma CoreFreeOf(core: seq<string>)
    requires forall i :: 0 <= i < |core| ==> core[i] != "" && AllDigits(core[i])
    ensures FreeOf(core, '.') && FreeOf(core, '-') && FreeOf(core, '+')
  {
    forall p | p in core ensures '.' !in p && '-' !in p && '+' !in p {
      DigitsRead(p);
    }
  }

  /**
   What is read: two or three numbers between dots, then a prerelease after a hyphen and a build after a plus,
   if there are any. The third number and the build are dropped; an empty prerelease is none.
   */
  lemma SpelledIsRead(version: string, core: seq<string>, prerelease: Option<string>, build: Option<string>)
    requires |core| == 2 || |core| == 3
    requires forall i :: 0 <= i < |core| ==> core[i] != "" && AllDigits(core[i]) && NatValue(core[i]) <= MAX_INT64
    requires prerelease.Some? ==> prerelease.value == "" || ValidPrerelease(prerelease.value)
    requires TrimSpace(version) == Spelled(core, prerelease, build)
    ensures ParseRelease(version).Some?
    ensures var r := ParseRelease(version).value;
            && r.major == NatValue(core[0]) && r.minor == NatValue(core[1])
            && r.prerelease == (if prerelease.Some? then prerelease.value else "")
            && r.version == PrintNat(r.major) + "." + PrintNat(r.minor) + (if r.prerelease == "" then "" else "-" + r.prerelease)
  {
    ParsedIsNormal(version);
    hide TrimSpace, Cut, Split, ValidPrerelease, ParseNonNegative;
    CoreFreeOf(core);
    if prerelease.Some? && prerelease.value != "" {
      PartsClean(prerelease.value);
    }
    CutPieces(core, prerelease, build);
    forall i | 0 <= i < |core| ensures ParseNonNegative(core[i]) == Some(NatValue(core[i])) {
      DigitsRead(core[i]);
    }
    assert Join(core, '.') != "" by {
      assert |Join(core, '.')| >= |core[0]|;
    }
  }

  lemma CoreDigits(core: seq<string>)
    requires '+' !in Join(core, '.') && '-' !in Join(core, '.')
    requires forall i :: 0 <= i < |core| ==> ParseNonNegative(core[i]).Some?
    ensures forall i :: 0 <= i < |core| ==> core[i] != "" && AllDigits(core[i]) && NatValue(core[i]) <= MAX_INT64
  {
    hide Join, ParseNonNegative;
    forall i | 0 <= i < |core| ensures core[i] != "" && AllDigits(core[i]) && NatValue(core[i]) <= MAX_INT64 {
      if '+' in core[i] {
        JoinKeeps(core, '.', '+', i);
      }
      if '-' in core[i] {
        JoinKeeps(core, '.', '-', i);
      }
      ReadDigits(core[i]);
    }
  }

  /** And nothing else is read. */
  lemma ReadIsSpelled(version: string) returns (core: seq<string>, prerelease: Option<string>, build: Option<string>)
    requires ParseRelease(version).Some?
    ensures |core| == 2 || |core| == 3
    ensures forall i :: 0 <= i < |core| ==> core[i] != "" && AllDigits(core[i]) && NatValue(core[i]) <= MAX_INT64
    ensures prerelease.Some? ==> prerelease.value == "" || ValidPrerelease(prerelease.value)
    ensures TrimSpace(version) == Spelled(core, prerelease, build)
  {
    hide TrimSpace, Split, ValidPrerelease, ParseNonNegative, Cut, Join, AllDigits, NatValue, Print;
    var trimmed := TrimSpace(version);
    var (plain, b, built) := Cut(trimmed, '+');
    var (c, p, hyphen) := Cut(plain, '-');
    core := Split(c, '.');
    assert (|core| == 2 || |core| == 3) && forall i :: 0 <= i < |core| ==> ParseNonNegative(core[i]).Some?;
    assert p == "" || ValidPrerelease(p);
    hide ParseRelease;
    CutParts(trimmed, '+');
    CutParts(plain, '-');
    prerelease, build := if hyphen then Some(p) else None, if built then Some(b) else None;
    JoinSplit(c, '.');
    assert '+' !in c by {
      assert c <= plain;
    }
    CoreDigits(core);
    assert trimmed == Spelled(core, prerelease, build);
  }

  function Normalize(version: string): Option<string> {
    match ParseRelease(version) case None => None case Some(r) => Some(r.version)
  }

  /** Normalising is idempotent, and loses nothing of what reading sees. */
  lemma NormalizeIdempotent(version: string)
    requires Normalize(version).Some?
    ensures Normalize(Normalize(version).value) == Normalize(version)
    ensures ParseRelease(Normalize(version).value) == ParseRelease(version)
  {
    ParsedIsNormal(version);
    ReadBack(ParseRelease(version).value);
  }

  // ---- ordering ----

  function CompareInt(a: int, b: int): int { if a < b then -1 else if a > b then 1 else 0 }

  /** How a prerelease part counts in the order: by its value if it reads as a number, else by its text. */
  datatype Rank = Number(n: int) | Word(s: string)

  function RankOf(part: string): Rank {
    match ParseNonNegative(part) case Some(n) => Number(n) case None => Word(part)
  }

  /** A part reads as a number if it is digits in range; so does zero with a minus sign. */
  lemma RankExactly(part: string)
    requires '+' !in part
    ensures RankOf(part) == if part != "" && AllDigits(part) && NatValue(part) <= MAX_INT64 then Number(NatValue(part))
                            else if |part| > 1 && part[0] == '-' && AllDigits(part[1..]) && NatValue(part[1..]) == 0 then Number(0)
                            else Word(part)
  {
    if part != "" && AllDigits(part) {
      AtoiExactly(part);
    } else if |part| > 1 && part[0] == '-' && AllDigits(part[1..]) {
      AtoiExactly(part[1..]);
      assert part == "-" + part[1..];
    }
  }

  function Ranks(parts: seq<string>): (ranks: seq<Rank>)
    ensures |ranks| == |parts| && forall i :: 0 <= i < |parts| ==> ranks[i] == RankOf(parts[i])
  {
    seq(|parts|, i requires 0 <= i < |parts| => RankOf(parts[i]))
  }

  function CompareRank(a: Rank, b: Rank): int {
    match (a, b)
    case (Number(m), Number(n)) => CompareInt(m, n)
    case (Number(_), Word(_)) => -1
    case (Word(_), Number(_)) => 1
    case (Word(s), Word(t)) => Lex(Codes(s), Codes(t))
  }

  /** Rank by rank, a proper prefix first. */
  function CompareRanks(a: seq<Rank>, b: seq<Rank>): int {
    if a == [] || b == [] then CompareInt(|a|, |b|)
    else if CompareRank(a[0], b[0]) != 0 then CompareRank(a[0], b[0])
    else CompareRanks(a[1..], b[1..])
  }

  lemma RankOrder(a: Rank, b: Rank, c: Rank)
    ensures CompareRank(a, b) == -CompareRank(b, a) && -1 <= CompareRank(a, b) <= 1
    ensures CompareRank(a, b) == 0 <==> a == b
    ensures CompareRank(a, b) < 0 && CompareRank(b, c) < 0 ==> CompareRank(a, c) < 0
  {
    if a.Word? && b.Word? {
      LexAntisymmetric(Codes(a.s), Codes(b.s));
      if Codes(a.s) == Codes(b.s) {
        CodesInjective(a.s, b.s);
      }
      if c.Word? && CompareRank(a, b) < 0 && CompareRank(b, c) < 0 {
        LexTransitive(Codes(a.s), Codes(b.s), Codes(c.s));
      }
    }
  }

  lemma {:induction false} RanksOrder(a: seq<Rank>, b: seq<Rank>)
    ensures CompareRanks(a, b) == -CompareRanks(b, a) && -1 <= CompareRanks(a, b) <= 1
    ensures CompareRanks(a, b) == 0 <==> a == b
  {
    if a != [] && b != [] {
      RankOrder(a[0], b[0], a[0]);
      RanksOrder(a[1..], b[1..]);
      assert a == [a[0]] + a[1..] && b == [b[0]] + b[1..];
    }
  }

  lemma {:induction false} RanksTransitive(a: seq<Rank>, b: seq<Rank>, c: seq<Rank>)
    requires CompareRanks(a, b) < 0 && CompareRanks(b, c) < 0
    ensures CompareRanks(a, c) < 0
  {
    if a != [] && b != [] && c != [] {
      RankOrder(a[0], b[0], c[0]);
      RankOrder(b[0], c[0], a[0]);
      RankOrder(a[0], c[0], b[0]);
      if a[0] == b[0] && b[0] == c[0] {
        RanksTransitive(a[1..], b[1..], c[1..]);
      }
    }
  }

  /** A prerelease, as it counts in the order. */
  function PrereleaseRanks(s: string): seq<Rank> { Ranks(Split(s, '.')) }

  method ComparePrerelease(a: string, b: string) returns (c: int)
    ensures c == CompareRanks(PrereleaseRanks(a), PrereleaseRanks(b))
  {
    hide Lex, ParseNonNegative;
    var as', bs := Split(a, '.'), Split(b, '.');
    hide Split;
    ghost var x, y := Ranks(as'), Ranks(bs);
    var i := 0;
    while i < |as'| && i < |bs|
      invariant 0 <= i <= |as'| && i <= |bs|
      invariant CompareRanks(x, y) == CompareRanks(x[i..], y[i..])
    {
      assert x[i..][1..] == x[i + 1..] && y[i..][1..] == y[i + 1..];
      RankOrder(x[i], y[i], x[i]);
      if as'[i] != bs[i] {
        var m, n := ParseNonNegative(as'[i]), ParseNonNegative(bs[i]);
        if m.Some? && n.Some? {
          var d := CompareInt(m.value, n.value);
          if d != 0 {
            return d;
          }
        } else if m.Some? {
          return -1;
        } else if n.Some? {
          return 1;
        } else {
          return Lex(Codes(as'[i]), Codes(bs[i]));
        }
      }
      i := i + 1;
    }
    return CompareInt(|as'|, |bs|);
  }

  function Compare(a: Release, b: Release): int {
    if a.major != b.major then CompareInt(a.major, b.major)
    else if a.minor != b.minor then CompareInt(a.minor, b.minor)
    else if a.prerelease == "" && b.prerelease != "" then 1
    else if a.prerelease != "" && b.prerelease == "" then -1
    else if a.prerelease == "" then 0
    else CompareRanks(PrereleaseRanks(a.prerelease), PrereleaseRanks(b.prerelease))
  }

  /**
   What the order of prereleases is: up to the first part that differs in rank nothing is decided; there a
   number is below a word, numbers go by value and words by the first character that differs; a proper prefix
   is below.
   */
  lemma {:induction false} RanksExactly(x: seq<Rank>, y: seq<Rank>)
    ensures CompareRanks(x, y) < 0 <==>
              exists i :: 0 <= i <= |x| && i < |y| && x[..i] == y[..i]
                && (i < |x| ==>
                      match (x[i], y[i])
                      case (Number(m), Number(n)) => m < n
                      case (Number(_), Word(_)) => true
                      case (Word(_), Number(_)) => false
                      case (Word(s), Word(t)) =>
                        exists k :: 0 <= k <= |s| && k < |t| && s[..k] == t[..k] && (k < |s| ==> s[k] < t[k]))
  {
    var i := FirstDifference(x, y);
    RanksFrom(x, y, i);
    forall j | i < j <= |x| && j <= |y| ensures x[..j] != y[..j] {
      assert x[..j][i] == x[i] && y[..j][i] == y[i];
    }
    forall j | 0 <= j < i ensures x[j] == y[j] {
      assert x[..i][j] == y[..i][j];
    }
    if i < |x| && i < |y| {
      RankOrder(x[i], y[i], x[i]);
      if x[i].Word? && y[i].Word? {
        CodesExactly(x[i].s, y[i].s);
      }
    }
  }

  lemma {:induction false} RanksFrom(x: seq<Rank>, y: seq<Rank>, i: nat)
    requires i <= |x| && i <= |y| && x[..i] == y[..i] && (i < |x| && i < |y| ==> x[i] != y[i])
    ensures CompareRanks(x, y) == if i < |x| && i < |y| then CompareRank(x[i], y[i])
                                  else if i < |y| then -1 else if i < |x| then 1 else 0
  {
    if i == 0 {
      if x != [] && y != [] {
        RankOrder(x[0], y[0], x[0]);
      }
    } else {
      assert x[0] == x[..i][0] == y[..i][0] == y[0];
      RankOrder(x[0], y[0], x[0]);
      assert x[1..][..i - 1] == x[..i][1..] == y[..i][1..] == y[1..][..i - 1];
      RanksFrom(x[1..], y[1..], i - 1);
    }
  }

  /** Major first, then minor, then a prerelease below its release, then the prereleases. */
  lemma CompareExactly(a: Release, b: Release)
    ensures Compare(a, b) < 0 <==>
              || a.major < b.major
              || (a.major == b.major && a.minor < b.minor)
              || (a.major == b.major && a.minor == b.minor && a.prerelease != "" && b.prerelease == "")
              || (a.major == b.major && a.minor == b.minor && a.prerelease != "" && b.prerelease != ""
                  && CompareRanks(PrereleaseRanks(a.prerelease), PrereleaseRanks(b.prerelease)) < 0)
  {
  }

  method CompareReleases(a: Release, b: Release) returns (c: int)
    ensures c == Compare(a, b)
  {
    if a.major != b.major {
      return CompareInt(a.major, b.major);
    }
    if a.minor != b.minor {
      return CompareInt(a.minor, b.minor);
    }
    if a.prerelease == "" {
      return if b.prerelease != "" then 1 else 0;
    }
    if b.prerelease == "" {
      return -1;
    }
    c := ComparePrerelease(a.prerelease, b.prerelease);
  }

  /** Releases the order does not tell apart. */
  ghost predicate Same(a: Release, b: Release) {
    && a.major == b.major && a.minor == b.minor && (a.prerelease == "" <==> b.prerelease == "")
    && (a.prerelease != "" ==> PrereleaseRanks(a.prerelease) == PrereleaseRanks(b.prerelease))
  }

  /** The order is a total preorder: antisymmetric in sign, transitive, and equal exactly on same ranks. */
  lemma TotalPreorder(a: Release, b: Release, c: Release)
    ensures Compare(a, b) == -Compare(b, a)
    ensures Compare(a, b) == 0 <==> Same(a, b)
    ensures Compare(a, b) <= 0 && Compare(b, c) <= 0 ==> Compare(a, c) <= 0
    ensures Compare(a, b) < 0 && Compare(b, c) <= 0 ==> Compare(a, c) < 0
  {
    var x, y, z := PrereleaseRanks(a.prerelease), PrereleaseRanks(b.prerelease), PrereleaseRanks(c.prerelease);
    RanksOrder(x, y);
    RanksOrder(y, z);
    hide PrereleaseRanks, CompareRanks;
    if CompareRanks(x, y) < 0 && CompareRanks(y, z) < 0 {
      RanksTransitive(x, y, z);
    }
  }

  // ---- choosing ----

  ghost predicate Reads(versions: seq<string>, r: Release) {
    exists i :: 0 <= i < |versions| && ParseRelease(versions[i]) == Some(r)
  }

  /** The readable versions, each wire form once. */
  method ParseSupported(versions: seq<string>) returns (releases: seq<Release>)
    ensures forall r :: r in releases <==> Reads(versions, r)
    ensures forall i, j :: 0 <= i < j < |releases| ==> releases[i].version != releases[j].version
  {
    hide ParseRelease, Normal;
    releases := [];
    var seen: set<string> := {};
    for i := 0 to |versions|
      invariant forall r :: r in releases <==> Reads(versions[..i], r)
      invariant forall v :: v in seen <==> exists r :: r in releases && r.version == v
      invariant forall i, j :: 0 <= i < j < |releases| ==> releases[i].version != releases[j].version
    {
      var so := versions[..i];
      var p := ParseRelease(versions[i]);
      assert versions[..i + 1] == so + [versions[i]];
      forall r ensures Reads(so + [versions[i]], r) <==> Reads(so, r) || p == Some(r) {
        ReadsMore(so, versions[i], r);
      }
      if p.None? {
        continue;
      }
      if p.value.version in seen {
        var r :| r in releases && r.version == p.value.version;
        ReadsNormal(so, r);
        ParsedIsNormal(versions[i]);
        ReadBack(r);
        ReadBack(p.value);
        continue;
      }
      seen := seen + {p.value.version};
      releases := releases + [p.value];
    }
    assert versions[..|versions|] == versions;
  }

  lemma ReadsMore(so: seq<string>, v: string, r: Release)
    ensures Reads(so + [v], r) <==> Reads(so, r) || ParseRelease(v) == Some(r)
  {
    if i :| 0 <= i < |so| && ParseRelease(so[i]) == Some(r) {
      assert (so + [v])[i] == so[i];
    }
    assert (so + [v])[|so|] == v;
  }

  lemma ReadsNormal(versions: seq<string>, r: Release)
    requires Reads(versions, r)
    ensures Normal(r)
  {
    var i :| 0 <= i < |versions| && ParseRelease(versions[i]) == Some(r);
    ParsedIsNormal(versions[i]);
  }

  /** Of the wanted major, where zero wants any, and not above the pin. */
  predicate Admissible(r: Release, major: int, pin: Option<Release>) {
    (major == 0 || r.major == major) && (pin.Some? ==> Compare(r, pin.value) <= 0)
  }

  /** A greatest admissible release of a list. */
  ghost predicate IsGreatest(releases: seq<Release>, major: int, pin: Option<Release>, best: Release) {
    && best in releases && Admissible(best, major, pin)
    && forall r :: r in releases && Admissible(r, major, pin) ==> Compare(r, best) <= 0
  }

  method HighestSupported(releases: seq<Release>, major: int, pin: Option<Release>) returns (chosen: Option<Release>)
    ensures chosen.Some? ==> IsGreatest(releases, major, pin, chosen.value)
    ensures chosen.None? ==> forall r :: r in releases ==> !Admissible(r, major, pin)
    ensures chosen.Some? ==>
              var c := chosen.value;
              && c in releases && (major != 0 ==> c.major == major)
              && (pin.Some? ==> c.major < pin.value.major || (c.major == pin.value.major && c.minor <= pin.value.minor))
              && forall r :: r in releases && (major == 0 || r.major == major)
                   && (pin.Some? ==> r.major < pin.value.major || (r.major == pin.value.major && r.minor < pin.value.minor))
                   ==> r.major < c.major || (r.major == c.major && r.minor <= c.minor)
    ensures chosen.None? ==>
              forall r :: r in releases && (major == 0 || r.major == major) ==>
                pin.Some? && (pin.value.major < r.major || (r.major == pin.value.major && pin.value.minor <= r.minor))
  {
    chosen := None;
    for i := 0 to |releases|
      invariant chosen.Some? ==> IsGreatest(releases[..i], major, pin, chosen.value)
      invariant chosen.None? ==> forall r :: r in releases[..i] ==> !Admissible(r, major, pin)
    {
      var r := releases[i];
      var so := releases[..i];
      assert releases[..i + 1] == so + [r];
      if major != 0 && r.major != major {
        continue;
      }
      if pin.Some? {
        var d := CompareReleases(r, pin.value);
        if d > 0 {
          continue;
        }
      }
      var better := chosen.None?;
      if chosen.Some? {
        var d := CompareReleases(r, chosen.value);
        better := d > 0;
        forall q ensures Compare(q, chosen.value) <= 0 && d > 0 ==> Compare(q, r) <= 0 {
          TotalPreorder(q, chosen.value, r);
          TotalPreorder(chosen.value, r, q);
        }
      }
      TotalPreorder(r, r, r);
      if better {
        chosen := Some(r);
      }
    }
    assert releases[..|releases|] == releases;
    ByNumbers(releases, major, pin, chosen);
  }

  /** What the greatest admissible release of a list is in majors and minors. */
  lemma ByNumbers(releases: seq<Release>, major: int, pin: Option<Release>, chosen: Option<Release>)
    requires chosen.Some? ==> IsGreatest(releases, major, pin, chosen.value)
    requires chosen.None? ==> forall r :: r in releases ==> !Admissible(r, major, pin)
    ensures chosen.Some? ==>
              var c := chosen.value;
              && (pin.Some? ==> c.major < pin.value.major || (c.major == pin.value.major && c.minor <= pin.value.minor))
              && forall r :: r in releases && (major == 0 || r.major == major)
                   && (pin.Some? ==> r.major < pin.value.major || (r.major == pin.value.major && r.minor < pin.value.minor))
                   ==> r.major < c.major || (r.major == c.major && r.minor <= c.minor)
    ensures chosen.None? ==>
              forall r :: r in releases && (major == 0 || r.major == major) ==>
                pin.Some? && (pin.value.major < r.major || (r.major == pin.value.major && pin.value.minor <= r.minor))
  {
    hide CompareRanks, PrereleaseRanks;
  }

  method FindSupported(releases: seq<Release>, major: int, minor: int, prerelease: string) returns (found: Option<Release>)
    ensures found.Some? ==> found.value in releases && found.value.major == major && found.value.minor == minor
                            && found.value.prerelease == prerelease
    ensures found.None? ==> forall r :: r in releases ==> !(r.major == major && r.minor == minor && r.prerelease == prerelease)
  {
    for i := 0 to |releases|
      invariant forall j :: 0 <= j < i ==> !(releases[j].major == major && releases[j].minor == minor && releases[j].prerelease == prerelease)
    {
      if releases[i].major == major && releases[i].minor == minor && releases[i].prerelease == prerelease {
        return Some(releases[i]);
      }
    }
    return None;
  }

  const SUPPORTED := ["3.0", "3.1"]

  /** What the server offers: the readable supported versions, or the built-in ones if there are none. */
  ghost predicate Offered(supported: seq<string>, r: Release) {
    if exists q :: Reads(supported, q) then Reads(supported, r) else Reads(SUPPORTED, r)
  }

  ghost predicate GreatestOffered(supported: seq<string>, major: int, pin: Option<Release>, best: Release) {
    && Offered(supported, best) && Admissible(best, major, pin)
    && forall r :: Offered(supported, r) && Admissible(r, major, pin) ==> Compare(r, best) <= 0
  }

  ghost predicate NoneOffered(supported: seq<string>, major: int, pin: Option<Release>) {
    forall r :: Offered(supported, r) ==> !Admissible(r, major, pin)
  }

  ghost predicate StableOffered(supported: seq<string>, pin: Release, r: Release) {
    Offered(supported, r) && r.major == pin.major && r.minor == pin.minor && r.prerelease == ""
  }

  /** What the greatest offered release is in majors and minors. */
  lemma OfferedByNumbers(supported: seq<string>, major: int, pin: Option<Release>, chosen: Option<Release>)
    requires if chosen.Some? then GreatestOffered(supported, major, pin, chosen.value) else NoneOffered(supported, major, pin)
    ensures chosen.Some? ==>
              var c := chosen.value;
              && (major != 0 ==> c.major == major)
              && (pin.Some? ==> c.major < pin.value.major || (c.major == pin.value.major && c.minor <= pin.value.minor))
              && forall r :: Offered(supported, r) && (major == 0 || r.major == major)
                   && (pin.Some? ==> r.major < pin.value.major || (r.major == pin.value.major && r.minor < pin.value.minor))
                   ==> r.major < c.major || (r.major == c.major && r.minor <= c.minor)
    ensures chosen.None? ==>
              forall r :: Offered(supported, r) && (major == 0 || r.major == major) ==>
                pin.Some? && (pin.value.major < r.major || (r.major == pin.value.major && pin.value.minor <= r.minor))
  {
    hide CompareRanks, PrereleaseRanks, Offered;
  }

  lemma OfferedNormal(supported: seq<string>, r: Release)
    requires Offered(supported, r)
    ensures 0 <= r.major && 0 <= r.minor
  {
    hide ParseRelease;
    if exists q :: Reads(supported, q) {
      ReadsNormal(supported, r);
    } else {
      ReadsNormal(SUPPORTED, r);
    }
  }

  /** The release for a pin. */
  method ForPin(releases: seq<Release>, pin: Release, ghost supported: seq<string>) returns (chosen: Option<Release>)
    requires 0 <= pin.major && forall r :: r in releases <==> Offered(supported, r)
    ensures if pin.prerelease != "" && exists r :: StableOffered(supported, pin, r)
            then chosen.Some? && StableOffered(supported, pin, chosen.value)
            else if chosen.Some? then GreatestOffered(supported, pin.major, Some(pin), chosen.value)
            else NoneOffered(supported, pin.major, Some(pin))
    ensures chosen.Some? ==>
              && chosen.value.major == pin.major && chosen.value.minor <= pin.minor
              && forall r :: Offered(supported, r) && r.major == pin.major && r.minor < pin.minor ==> r.minor <= chosen.value.minor
    ensures chosen.None? ==> forall r :: Offered(supported, r) && r.major == pin.major ==> pin.minor <= r.minor
    ensures pin.prerelease != "" ==>
              forall r :: Offered(supported, r) && r.major == pin.major && r.minor == pin.minor && r.prerelease == ""
                ==> chosen.Some? && chosen.value.minor == pin.minor && chosen.value.prerelease == ""
  {
    hide Offered, Compare;
    if pin.prerelease != "" {
      var stable := FindSupported(releases, pin.major, pin.minor, "");
      if stable.Some? {
        assert StableOffered(supported, pin, stable.value);
        return stable;
      }
    }
    chosen := HighestSupported(releases, pin.major, Some(pin));
    OfferedByNumbers(supported, pin.major, Some(pin), chosen);
    if chosen.Some? {
      OfferedNormal(supported, chosen.value);
    }
  }

  /**
   The version to serve. A pin gets the greatest offered release not above it in its major, except that a
   prerelease pin gets the stable release of its minor where one is offered; a major alone, or nothing, gets
   the greatest release there. There is no answer only when no offered release qualifies.
   */
  method Negotiate(version: string, major: int, supported: seq<string>) returns (chosen: Option<Release>)
    ensures TrimSpace(version) != "" && ParseRelease(version).None? ==> chosen == None
    ensures TrimSpace(version) != "" && ParseRelease(version).Some? ==>
              var pin := ParseRelease(version).value;
              if pin.prerelease != "" && exists r :: StableOffered(supported, pin, r)
              then chosen.Some? && StableOffered(supported, pin, chosen.value)
              else if chosen.Some? then GreatestOffered(supported, pin.major, Some(pin), chosen.value)
              else NoneOffered(supported, pin.major, Some(pin))
    ensures TrimSpace(version) == "" && major < 0 ==> chosen == None
    ensures TrimSpace(version) == "" && major > 0 ==>
              if chosen.Some? then GreatestOffered(supported, major, None, chosen.value) else NoneOffered(supported, major, None)
    ensures TrimSpace(version) == "" && major == 0 ==> chosen.Some? && GreatestOffered(supported, 0, None, chosen.value)
    // the same in majors and minors
    ensures TrimSpace(version) != "" && ParseRelease(version).Some? ==>
              var pin := ParseRelease(version).value;
              && (chosen.Some? ==>
                    && chosen.value.major == pin.major && chosen.value.minor <= pin.minor
                    && forall r :: Offered(supported, r) && r.major == pin.major && r.minor < pin.minor
                         ==> r.minor <= chosen.value.minor)
              && (chosen.None? ==> forall r :: Offered(supported, r) && r.major == pin.major ==> pin.minor <= r.minor)
              && (pin.prerelease != "" ==>
                    forall r :: Offered(supported, r) && r.major == pin.major && r.minor == pin.minor && r.prerelease == ""
                      ==> chosen.Some? && chosen.value.minor == pin.minor && chosen.value.prerelease == "")
    ensures TrimSpace(version) == "" && chosen.Some? ==>
              && (major != 0 ==> chosen.value.major == major)
              && forall r :: Offered(supported, r) && (major == 0 || r.major == major)
                   ==> r.major < chosen.value.major || (r.major == chosen.value.major && r.minor <= chosen.value.minor)
  {
    hide ParseRelease, TrimSpace, Compare;
    var releases := ParseSupported(supported);
    if |releases| == 0 {
      releases := ParseSupported(SUPPORTED);
    } else {
      assert Reads(supported, releases[0]);
    }
    assert forall r :: r in releases <==> Offered(supported, r);
    SomethingBuiltIn();
    hide Offered, Reads;
    if TrimSpace(version) != "" {
      var requested := ParseRelease(version);
      if requested.None? {
        return None;
      }
      ParsedIsNormal(version);
      chosen := ForPin(releases, requested.value, supported);
      return;
    }
    if major != 0 {
      if major < 1 {
        return None;
      }
      chosen := HighestSupported(releases, major, None);
      OfferedByNumbers(supported, major, None, chosen);
      return;
    }
    assert releases != [];
    assert releases[0] in releases;
    chosen := HighestSupported(releases, 0, None);
    OfferedByNumbers(supported, 0, None, chosen);
  }

  lemma SomethingBuiltIn()
    ensures exists r :: Reads(SUPPORTED, r)
  {
    var r := Release(3, 0, "", "3.0");
    assert PrintInt(3) == "3" && PrintInt(0) == "0";
    assert "3" + "." + "0" == "3.0";
    ReadBack(r);
    assert SUPPORTED[0] == r.version;
    assert Reads(SUPPORTED, r);
  }
}
