/**
 The string operations of the Go standard library that the modelled code builds on:
 splitting and joining at a separator, decimal printing and decimal parsing.

 A Go string is modelled as a sequence of characters; where the original works on bytes,
 a character stands for one byte.
 */
module Text {

  datatype Option<+T> = None | Some(value: T)

  /** The index of the first `c` in `s`, or `|s|` when there is none. */
  function Find(s: string, c: char): (i: nat)
    ensures i <= |s|
    ensures c !in s[..i]
    ensures i < |s| ==> s[i] == c
  {
    if s == "" || s[0] == c then 0 else 1 + Find(s[1..], c)
  }

  /** strings.Split at a one-character separator. */
  function Split(s: string, sep: char): (parts: seq<string>)
    ensures |parts| > 0
    ensures forall p :: p in parts ==> sep !in p
    decreases |s|
  {
    var i := Find(s, sep);
    if i == |s| then [s] else [s[..i]] + Split(s[i + 1..], sep)
  }

  /** strings.Join with a one-character separator. */
  function Join(parts: seq<string>, sep: char): string
  {
    if parts == [] then ""
    else if |parts| == 1 then parts[0]
    else parts[0] + [sep] + Join(parts[1..], sep)
  }

  ghost predicate FreeOf(parts: seq<string>, sep: char)
  {
    forall p :: p in parts ==> sep !in p
  }

  lemma {:induction false} FindInConcat(s: string, t: string, c: char)
    requires c !in s
    ensures Find(s + t, c) == |s| + Find(t, c)
  {
    if s == "" {
      assert s + t == t;
    } else {
      assert (s + t)[1..] == s[1..] + t;
      FindInConcat(s[1..], t, c);
    }
  }

  lemma {:induction false} JoinSplit(s: string, sep: char)
    ensures Join(Split(s, sep), sep) == s
    decreases |s|
  {
    var i := Find(s, sep);
    if i < |s| {
      JoinSplit(s[i + 1..], sep);
      var tail := Split(s[i + 1..], sep);
      assert Split(s, sep) == [s[..i]] + tail;
      assert ([s[..i]] + tail)[1..] == tail;
      assert s == s[..i] + [sep] + s[i + 1..];
    }
  }

  lemma SplitCons(head: string, tail: string, sep: char)
    requires sep !in head
    ensures Split(head + [sep] + tail, sep) == [head] + Split(tail, sep)
  {
    var s := head + [sep] + tail;
    assert s == head + ([sep] + tail);
    FindInConcat(head, [sep] + tail, sep);
    assert Find([sep] + tail, sep) == 0;
    assert s[..|head|] == head && s[|head| + 1..] == tail;
  }

  /** Splitting undoes joining on every non-empty list of separator-free parts. */
  lemma {:induction false} SplitJoin(parts: seq<string>, sep: char)
    requires parts != [] && FreeOf(parts, sep)
    ensures Split(Join(parts, sep), sep) == parts
  {
    if |parts| == 1 {
      FindInConcat(parts[0], "", sep);
      assert parts[0] + "" == parts[0];
    } else {
      SplitJoin(parts[1..], sep);
      SplitCons(parts[0], Join(parts[1..], sep), sep);
      assert parts == [parts[0]] + parts[1..];
    }
  }

  /** A join determines its parts. */
  lemma JoinInjective(a: seq<string>, b: seq<string>, sep: char)
    requires a != [] && b != [] && FreeOf(a, sep) && FreeOf(b, sep)
    requires Join(a, sep) == Join(b, sep)
    ensures a == b
  {
    SplitJoin(a, sep);
    SplitJoin(b, sep);
  }

  /** Appending one part appends a separator and the part. */
  lemma {:induction false} JoinSnoc(parts: seq<string>, last: string, sep: char)
    requires parts != []
    ensures Join(parts + [last], sep) == Join(parts, sep) + [sep] + last
  {
    if |parts| == 1 {
      assert (parts + [last])[1..] == [last];
    } else {
      JoinSnoc(parts[1..], last, sep);
      assert (parts + [last])[1..] == parts[1..] + [last];
    }
  }

  lemma {:induction false} JoinFree(parts: seq<string>, sep: char, c: char)
    requires c != sep && forall i :: 0 <= i < |parts| ==> c !in parts[i]
    ensures c !in Join(parts, sep)
  {
    if |parts| > 1 {
      JoinFree(parts[1..], sep, c);
    }
  }

  /** A join keeps every character of its parts. */
  lemma {:induction false} JoinKeeps(parts: seq<string>, sep: char, c: char, i: nat)
    requires i < |parts| && c in parts[i]
    ensures c in Join(parts, sep)
  {
    if i > 0 {
      JoinKeeps(parts[1..], sep, c, i - 1);
    }
  }

  /** strings.Cut: what is before and after the first `c`, and whether there is one. */
  function Cut(s: string, c: char): (string, string, bool)
  {
    var i := Find(s, c);
    if i == |s| then (s, "", false) else (s[..i], s[i + 1..], true)
  }

  lemma CutAt(a: string, b: string, c: char)
    requires c !in a
    ensures Cut(a + [c] + b, c) == (a, b, true)
  {
    var s := a + [c] + b;
    assert s == a + ([c] + b);
    FindInConcat(a, [c] + b, c);
    assert s[..|a|] == a && s[|a| + 1..] == b;
  }

  lemma CutNone(a: string, c: char)
    requires c !in a
    ensures Cut(a, c) == (a, "", false)
  {
    FindInConcat(a, "", c);
    assert a + "" == a;
  }

  /** Cutting takes the text apart at the first `c`. */
  lemma CutParts(s: string, c: char)
    ensures var (a, b, found) := Cut(s, c);
            c !in a && (if found then s == a + [c] + b else s == a && b == "")
  {
  }

  // ---- decimal numbers ----

  predicate IsDigit(c: char) { '0' <= c <= '9' }

  predicate AllDigits(s: string) { forall i :: 0 <= i < |s| ==> IsDigit(s[i]) }

  function DigitChar(d: int): (c: char)
    requires 0 <= d < 10
    ensures IsDigit(c) && c as int - '0' as int == d
  {
    '0' + d as char
  }

  /** The number the first `n` characters of a string of digits denote. */
  function NatPrefix(s: string, n: nat): nat
    requires n <= |s| && AllDigits(s)
  {
    if n == 0 then 0 else 10 * NatPrefix(s, n - 1) + (s[n - 1] as int - '0' as int)
  }

  function NatValue(s: string): nat
    requires AllDigits(s)
  {
    NatPrefix(s, |s|)
  }

  lemma {:induction false} NatPrefixOf(s: string, t: string, n: nat)
    requires AllDigits(s) && AllDigits(t) && n <= |s| && n <= |t| && s[..n] == t[..n]
    ensures NatPrefix(s, n) == NatPrefix(t, n)
  {
    if n > 0 {
      assert s[..n - 1] == s[..n][..n - 1] == t[..n][..n - 1] == t[..n - 1];
      NatPrefixOf(s, t, n - 1);
      assert s[n - 1] == s[..n][n - 1] == t[..n][n - 1];
    }
  }

  /** One more digit multiplies by ten and adds. */
  lemma NatValueSnoc(s: string, d: char)
    requires AllDigits(s) && IsDigit(d)
    ensures AllDigits(s + [d]) && NatValue(s + [d]) == 10 * NatValue(s) + (d as int - '0' as int)
  {
    assert (s + [d])[..|s|] == s[..|s|];
    NatPrefixOf(s + [d], s, |s|);
  }

  /** strconv.Itoa on a natural number. */
  function PrintNat(n: nat): (s: string)
    ensures s != "" && AllDigits(s)
    ensures NatValue(s) == n
    ensures |s| > 1 ==> s[0] != '0'
  {
    if n < 10 then
      assert NatPrefix([DigitChar(n)], 0) == 0;
      [DigitChar(n)]
    else
      NatValueSnoc(PrintNat(n / 10), DigitChar(n % 10));
      PrintNat(n / 10) + [DigitChar(n % 10)]
  }

  /** strconv.FormatInt in base 10. */
  function PrintInt(n: int): (s: string)
    ensures s != ""
    ensures n >= 0 ==> s == PrintNat(n)
    ensures n < 0 ==> s == "-" + PrintNat(-n)
  {
    if n < 0 then "-" + PrintNat(-n) else PrintNat(n)
  }

  lemma PrintIntInjective(m: int, n: int)
    requires PrintInt(m) == PrintInt(n)
    ensures m == n
  {
    assert m < 0 <==> PrintInt(m)[0] == '-';
    assert n < 0 <==> PrintInt(n)[0] == '-';
    if m < 0 {
      assert PrintInt(m)[1..] == PrintNat(-m);
      assert PrintInt(n)[1..] == PrintNat(-n);
    }
  }

  const MAX_INT64 := 0x7FFF_FFFF_FFFF_FFFF

  /** strconv.Atoi on a 64-bit platform: an optional sign, then digits, within the int64 range. */
  function Atoi(s: string): (n: Option<int>)
  {
    var body := if s != "" && (s[0] == '+' || s[0] == '-') then s[1..] else s;
    if body == "" || !AllDigits(body) then None
    else
      var m: int := NatValue(body);
      var v := if s[0] == '-' then -m else m;
      if -MAX_INT64 - 1 <= v <= MAX_INT64 then Some(v) else None
  }

  /** What is read: digits in range, with or without a sign. */
  lemma AtoiExactly(digits: string)
    requires digits != "" && AllDigits(digits)
    ensures Atoi(digits) == if NatValue(digits) <= MAX_INT64 then Some(NatValue(digits)) else None
    ensures Atoi("+" + digits) == Atoi(digits)
    ensures var n: int := NatValue(digits); Atoi("-" + digits) == if n <= MAX_INT64 + 1 then Some(-n) else None
  {
    assert ("+" + digits)[1..] == ("-" + digits)[1..] == digits;
    assert IsDigit(digits[0]);
  }

  lemma AtoiSome(s: string)
    requires Atoi(s).Some?
    ensures exists digits :: digits != "" && AllDigits(digits) && (s == digits || s == "+" + digits || s == "-" + digits)
  {
    if s[0] == '+' || s[0] == '-' {
      assert s == [s[0]] + s[1..];
      assert s[1..] != "" && AllDigits(s[1..]);
    }
  }

  lemma AtoiPrint(n: int)
    requires -MAX_INT64 - 1 <= n <= MAX_INT64
    ensures Atoi(PrintInt(n)) == Some(n)
  {
    var s := PrintInt(n);
    if n < 0 {
      assert s[1..] == PrintNat(-n);
    } else {
      assert IsDigit(s[0]);
    }
  }
}
