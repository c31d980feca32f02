/**
 The order of object members: by UTF-16 code units (RFC 8785, section 3.2.3), with the
 shortcut for ASCII keys. A key is a valid Unicode string, one character per scalar value.
 */
module KeyOrder {

  /** utf16.Encode of one scalar value: one code unit, or a surrogate pair. */
  function Units(c: char): (u: seq<int>)
    ensures c as int < 0x10000 ==> |u| == 1 && u[0] == c as int
    ensures c as int >= 0x10000 ==> |u| == 2 && 0xD800 <= u[0] < 0xDC00 <= u[1] < 0xE000
                                    && c as int == 0x10000 + (u[0] - 0xD800) * 0x400 + (u[1] - 0xDC00)
  {
    if c as int < 0x10000 then [c as int]
    else [0xD800 + (c as int - 0x10000) / 0x400, 0xDC00 + (c as int - 0x10000) % 0x400]
  }

  function Utf16(s: string): seq<int>
  {
    if s == "" then [] else Units(s[0]) + Utf16(s[1..])
  }

  function Codes(s: string): (r: seq<int>)
    ensures |r| == |s|
    ensures forall i :: 0 <= i < |s| ==> r[i] == s[i] as int
  {
    seq(|s|, i requires 0 <= i < |s| => s[i] as int)
  }

  lemma CodesInjective(a: string, b: string)
    requires Codes(a) == Codes(b)
    ensures a == b
  {
    forall i | 0 <= i < |a| ensures a[i] == b[i] {
      assert Codes(a)[i] == Codes(b)[i];
    }
  }

  lemma SameBeginnings(a: string, b: string, n: nat)
    requires n <= |a| && n <= |b|
    ensures Codes(a)[..n] == Codes(b)[..n] <==> a[..n] == b[..n]
  {
    var u, v := Codes(a), Codes(b);
    if u[..n] == v[..n] {
      forall i | 0 <= i < n ensures a[i] == b[i] {
        assert u[..n][i] == v[..n][i];
      }
    }
    if a[..n] == b[..n] {
      forall i | 0 <= i < n ensures u[i] == v[i] {
        assert a[..n][i] == b[..n][i];
      }
    }
  }

  /** Lexicographic comparison: negative, zero or positive. */
  function Lex(a: seq<int>, b: seq<int>): int
  {
    if a == [] && b == [] then 0
    else if a == [] then -1
    else if b == [] then 1
    else if a[0] < b[0] then -1
    else if a[0] > b[0] then 1
    else Lex(a[1..], b[1..])
  }

  function Compare(a: string, b: string): int { Lex(Utf16(a), Utf16(b)) }

  predicate Less(a: string, b: string) { Compare(a, b) < 0 }

  // ---- the order is strict and total ----

  lemma {:induction false} LexAntisymmetric(a: seq<int>, b: seq<int>)
    ensures Lex(a, b) == -Lex(b, a)
    ensures Lex(a, b) == 0 <==> a == b
    ensures -1 <= Lex(a, b) <= 1
  {
    if a != [] && b != [] {
      LexAntisymmetric(a[1..], b[1..]);
      if a[0] == b[0] && a[1..] == b[1..] {
        assert a == [a[0]] + a[1..] && b == [b[0]] + b[1..];
      }
    }
  }

  lemma {:induction false} LexTransitive(a: seq<int>, b: seq<int>, c: seq<int>)
    requires Lex(a, b) < 0 && Lex(b, c) < 0
    ensures Lex(a, c) < 0
  {
    if a != [] && b != [] && c != [] && a[0] == b[0] == c[0] {
      LexTransitive(a[1..], b[1..], c[1..]);
    }
  }

  lemma {:induction false} LexCommonPrefix(a: seq<int>, b: seq<int>, n: nat)
    requires n <= |a| && n <= |b| && a[..n] == b[..n]
    ensures Lex(a, b) == Lex(a[n..], b[n..])
  {
    if n == 0 {
      assert a[0..] == a && b[0..] == b;
    } else {
      assert a[0] == a[..n][0] == b[..n][0] == b[0];
      assert a[1..][..n - 1] == a[..n][1..] && b[1..][..n - 1] == b[..n][1..];
      LexCommonPrefix(a[1..], b[1..], n - 1);
      assert a[1..][n - 1..] == a[n..] && b[1..][n - 1..] == b[n..];
    }
  }

  /** At the first difference the smaller number comes first; without one, the shorter sequence. */
  lemma {:induction false} LexExactly(a: seq<int>, b: seq<int>)
    ensures Lex(a, b) < 0
        <==> exists n :: 0 <= n <= |a| && n <= |b| && a[..n] == b[..n] && n < |b| && (n < |a| ==> a[n] < b[n])
    ensures Lex(a, b) > 0
        <==> exists n :: 0 <= n <= |a| && n <= |b| && a[..n] == b[..n] && n < |a| && (n < |b| ==> b[n] < a[n])
  {
    var n := FirstDifference(a, b);
    LexCommonPrefix(a, b, n);
    forall m | n < m <= |a| && m <= |b| ensures a[..m] != b[..m] {
      assert a[..m][n] == a[n] && b[..m][n] == b[n];
    }
    forall m | 0 <= m < n ensures a[m] == b[m] {
      assert a[..n][m] == b[..n][m];
    }
  }

  lemma {:induction false} FirstDifference<T>(a: seq<T>, b: seq<T>) returns (n: nat)
    ensures n <= |a| && n <= |b| && a[..n] == b[..n] && (n < |a| && n < |b| ==> a[n] != b[n])
  {
    n := 0;
    if a != [] && b != [] && a[0] == b[0] {
      n := FirstDifference(a[1..], b[1..]);
      assert a[..n + 1] == [a[0]] + a[1..][..n] && b[..n + 1] == [b[0]] + b[1..][..n];
      n := n + 1;
    }
  }

  /** A string can be read back from its code units. */
  lemma {:induction false} Utf16Injective(a: string, b: string)
    requires Utf16(a) == Utf16(b)
    ensures a == b
  {
    if a != "" && b != "" {
      var u, v := Utf16(a), Utf16(b);
      assert u[0] == Units(a[0])[0] && v[0] == Units(b[0])[0];
      if a[0] as int >= 0x10000 && b[0] as int >= 0x10000 {
        assert u[1] == Units(a[0])[1] && v[1] == Units(b[0])[1];
        var x, y := a[0] as int - 0x10000, b[0] as int - 0x10000;
        assert x == x / 0x400 * 0x400 + x % 0x400 && y == y / 0x400 * 0x400 + y % 0x400;
      }
      assert a[0] == b[0];
      assert Utf16(a[1..]) == u[|Units(a[0])|..] && Utf16(b[1..]) == v[|Units(b[0])|..];
      Utf16Injective(a[1..], b[1..]);
      assert a == [a[0]] + a[1..] && b == [b[0]] + b[1..];
    }
  }

  /** Exactly one of: less, equal, greater; and less is transitive. */
  lemma StrictTotalOrder(a: string, b: string, c: string)
    ensures Compare(a, b) == 0 <==> a == b
    ensures Compare(a, b) == -Compare(b, a)
    ensures Less(a, b) && Less(b, c) ==> Less(a, c)
  {
    LexAntisymmetric(Utf16(a), Utf16(b));
    if Compare(a, b) == 0 {
      Utf16Injective(a, b);
    }
    if Less(a, b) && Less(b, c) {
      LexTransitive(Utf16(a), Utf16(b), Utf16(c));
    }
  }

  /** What the order is: by the first code unit that differs, and a proper prefix first. */
  lemma CompareExactly(a: string, b: string)
    ensures Compare(a, b) < 0 <==>
              var u, v := Utf16(a), Utf16(b);
              exists n :: 0 <= n <= |u| && n < |v| && u[..n] == v[..n] && (n < |u| ==> u[n] < v[n])
  {
    LexExactly(Utf16(a), Utf16(b));
  }

  predicate Ascii(s: string) { forall i :: 0 <= i < |s| ==> s[i] as int < 0x80 }

  /** On ASCII keys, byte order is UTF-16 order. */
  lemma {:induction false} AsciiUnits(s: string)
    requires Ascii(s)
    ensures Utf16(s) == Codes(s)
  {
    if s != "" {
      AsciiUnits(s[1..]);
      assert Codes(s) == [s[0] as int] + Codes(s[1..]);
    }
  }

  /** Strings by their character codes: at the first character that differs, and a proper prefix first. */
  lemma CodesExactly(a: string, b: string)
    ensures Lex(Codes(a), Codes(b)) < 0
        <==> exists n :: 0 <= n <= |a| && n < |b| && a[..n] == b[..n] && (n < |a| ==> a[n] < b[n])
  {
    var u, v := Codes(a), Codes(b);
    LexExactly(u, v);
    hide Lex;
    forall n | 0 <= n <= |a| && n < |b| ensures u[..n] == v[..n] <==> a[..n] == b[..n] {
      SameBeginnings(a, b, n);
    }
  }

  /** On ASCII keys the order is the one by characters. */
  lemma AsciiExactly(a: string, b: string)
    requires Ascii(a) && Ascii(b)
    ensures Compare(a, b) < 0 <==> exists n :: 0 <= n <= |a| && n < |b| && a[..n] == b[..n] && (n < |a| ==> a[n] < b[n])
  {
    AsciiUnits(a);
    AsciiUnits(b);
    CodesExactly(a, b);
  }

  method IsAscii(s: string) returns (b: bool)
    ensures b <==> Ascii(s)
  {
    for i := 0 to |s|
      invariant forall j :: 0 <= j < i ==> s[j] as int < 0x80
    {
      if s[i] as int >= 0x80 {
        return false;
      }
    }
    return true;
  }

  /** The comparison is decided where the sequences first differ, or where one ends. */
  lemma LexAt(a: seq<int>, b: seq<int>, n: nat)
    requires n <= |a| && n <= |b| && a[..n] == b[..n]
    requires n < |a| && n < |b| ==> a[n] != b[n]
    ensures Lex(a, b) == if n < |a| && n < |b| then (if a[n] < b[n] then -1 else 1)
                         else if n < |b| then -1 else if n < |a| then 1 else 0
  {
    LexCommonPrefix(a, b, n);
  }

  method CompareKeys(a: string, b: string) returns (c: int)
    ensures c == Compare(a, b)
    ensures c == 0 <==> a == b
    ensures c < 0 <==>
              var u, v := Utf16(a), Utf16(b);
              exists n :: 0 <= n <= |u| && n < |v| && u[..n] == v[..n] && (n < |u| ==> u[n] < v[n])
  {
    hide Utf16, Lex;
    StrictTotalOrder(a, b, a);
    CompareExactly(a, b);
    if a == b {
      return 0;
    }
    var asciiA := IsAscii(a);
    var asciiB := IsAscii(b);
    if asciiA && asciiB {
      AsciiUnits(a);
      AsciiUnits(b);
      LexAntisymmetric(Codes(a), Codes(b));
      return if Lex(Codes(a), Codes(b)) < 0 then -1 else 1;
    }
    c := CompareUnits(Utf16(a), Utf16(b));
  }

  method CompareUnits(a: seq<int>, b: seq<int>) returns (c: int)
    ensures c == Lex(a, b)
  {
    hide Lex;
    var n := if |b| < |a| then |b| else |a|;
    for i := 0 to n
      invariant a[..i] == b[..i]
    {
      if a[i] != b[i] {
        LexAt(a, b, i);
        return if a[i] < b[i] then -1 else 1;
      }
    }
    LexAt(a, b, n);
    return if |a| < |b| then -1 else if |a| > |b| then 1 else 0;
  }

  // ---- the sorted key list of an object is unique ----

  ghost predicate Sorted(s: seq<string>) { forall i, j :: 0 <= i < j < |s| ==> Less(s[i], s[j]) }

  function Elements(s: seq<string>): set<string> { set x | x in s }

  ghost predicate IsLeast(k: string, keys: set<string>)
  {
    k in keys && forall x :: x in keys && x != k ==> Less(k, x)
  }

  lemma {:induction false} LeastExists(keys: set<string>)
    requires keys != {}
    ensures exists k :: IsLeast(k, keys)
  {
    var k :| k in keys;
    var rest := keys - {k};
    if rest == {} {
      assert keys == rest + {k};
      assert IsLeast(k, keys);
    } else {
      LeastExists(rest);
      var l :| IsLeast(l, rest);
      StrictTotalOrder(k, l, k);
      if Less(l, k) {
        assert IsLeast(l, keys);
      } else {
        forall x | x in keys && x != k ensures Less(k, x) {
          StrictTotalOrder(k, l, x);
        }
        assert IsLeast(k, keys);
      }
    }
  }

  ghost function Least(keys: set<string>): (k: string)
    requires keys != {}
    ensures IsLeast(k, keys)
  {
    LeastExists(keys);
    var k :| IsLeast(k, keys);
    k
  }

  /** The keys in order. */
  ghost function SortedKeys(keys: set<string>): (s: seq<string>)
    ensures Elements(s) == keys
    ensures |s| == |keys|
  {
    if keys == {} then []
    else
      var k := Least(keys);
      var s := [k] + SortedKeys(keys - {k});
      assert Elements(s) == {k} + Elements(SortedKeys(keys - {k}));
      s
  }

  lemma {:induction false} SortedKeysAscending(keys: set<string>)
    ensures Sorted(SortedKeys(keys))
  {
    if keys != {} {
      var k := Least(keys);
      var rest := SortedKeys(keys - {k});
      SortedKeysAscending(keys - {k});
      forall j | 0 <= j < |rest| ensures Less(k, rest[j]) {
        assert rest[j] in Elements(rest);
      }
    }
  }

  lemma SortedHead(s: seq<string>)
    requires Sorted(s) && s != []
    ensures Elements(s) != {} && Least(Elements(s)) == s[0]
    ensures Elements(s[1..]) == Elements(s) - {s[0]}
  {
    assert s[0] in Elements(s);
    var k := Least(Elements(s));
    var j :| 0 <= j < |s| && s[j] == k;
    StrictTotalOrder(s[0], k, s[0]);
    assert s == [s[0]] + s[1..];
    forall x | x in s[1..] ensures x != s[0] {
      var i :| 0 <= i < |s[1..]| && s[1..][i] == x;
      StrictTotalOrder(s[0], x, s[0]);
      assert Less(s[0], s[i + 1]);
    }
    assert Elements(s) == {s[0]} + Elements(s[1..]);
  }

  /** Any way of arranging a set of keys in strictly increasing order gives the same list. */
  lemma {:induction false} SortingUnique(s: seq<string>)
    requires Sorted(s)
    ensures s == SortedKeys(Elements(s))
  {
    if s != [] {
      SortedHead(s);
      SortingUnique(s[1..]);
      assert s == [s[0]] + s[1..];
    }
  }

  /** Insert a key that is not there yet, before the first greater one. */
  method Insert(k: string, s: seq<string>) returns (r: seq<string>)
    requires Sorted(s) && k !in s
    ensures Sorted(r) && Elements(r) == Elements(s) + {k}
  {
    var i := 0;
    while i < |s|
      invariant 0 <= i <= |s|
      invariant forall j :: 0 <= j < i ==> Less(s[j], k)
    {
      var c := CompareKeys(s[i], k);
      if c >= 0 {
        break;
      }
      i := i + 1;
    }
    r := s[..i] + [k] + s[i..];
    if i < |s| {
      StrictTotalOrder(s[i], k, k);
      StrictTotalOrder(k, s[i], k);
      assert Less(k, s[i]);
      forall j | i <= j < |s| ensures Less(k, s[j]) {
        StrictTotalOrder(k, s[i], s[j]);
      }
    }
    assert forall x :: x in r <==> x in s[..i] || x == k || x in s[i..];
    assert s == s[..i] + s[i..];
  }

  /** sort.Slice on distinct keys, by CompareKeys. */
  method SortKeys(keys: seq<string>) returns (s: seq<string>)
    requires forall i, j :: 0 <= i < j < |keys| ==> keys[i] != keys[j]
    ensures s == SortedKeys(Elements(keys))
  {
    s := [];
    for i := 0 to |keys|
      invariant Sorted(s) && Elements(s) == Elements(keys[..i])
    {
      assert keys[i] !in Elements(keys[..i]);
      assert keys[..i + 1] == keys[..i] + [keys[i]];
      s := Insert(keys[i], s);
    }
    assert keys[..|keys|] == keys;
    SortingUnique(s);
  }
}
