/**
 The bytes the idempotency middleware hashes: the payload with the excluded paths removed, in
 canonical form, its numbers laid out as ECMAScript does.
 */
module PayloadHash {
  import opened Text
  import opened JsonText
  import opened CanonicalJson
  import opened Es6Number
  import JsonWriter

  // ---- excluded paths ----

  /** The compiled exclude list. */
  datatype ExcludeNode = Node(children: map<string, ExcludeNode>, leaf: bool)

  const EMPTY := Node(map[], false)

  function Insert(node: ExcludeNode, parts: seq<string>): ExcludeNode
    decreases |parts|
  {
    if parts == [] then node.(leaf := true)
    else
      var k := parts[0];
      var child := if k in node.children then node.children[k] else EMPTY;
      node.(children := node.children[k := Insert(child, parts[1..])])
  }

  /** The node lists a path. */
  predicate Lists(node: ExcludeNode, path: seq<string>)
  {
    if path == [] then node.leaf
    else path[0] in node.children && Lists(node.children[path[0]], path[1..])
  }

  lemma {:induction false} InsertLists(node: ExcludeNode, parts: seq<string>, path: seq<string>)
    ensures Lists(Insert(node, parts), path) <==> Lists(node, path) || path == parts
    decreases |parts|
  {
    if parts != [] && path != [] {
      var k := parts[0];
      var child := if k in node.children then node.children[k] else EMPTY;
      if path[0] == k {
        InsertLists(child, parts[1..], path[1..]);
        assert path == [k] + path[1..] && parts == [k] + parts[1..];
        if k !in node.children {
          EmptyListsNothing(path[1..]);
        }
      }
    }
  }

  lemma EmptyListsNothing(path: seq<string>)
    ensures !Lists(EMPTY, path)
  {
  }

  method CompileExcludePaths(paths: seq<string>) returns (root: ExcludeNode)
    ensures forall path :: Lists(root, path) <==> IsListed(paths, path)
  {
    root := EMPTY;
    for i := 0 to |paths|
      invariant forall path :: Lists(root, path) <==> IsListed(paths[..i], path)
    {
      ghost var before := root;
      var parts := Split(paths[i], '.');
      root := Insert(root, parts);
      forall path ensures Lists(root, path) <==> IsListed(paths[..i + 1], path) {
        InsertLists(before, parts, path);
        ListedSnoc(paths, i, path);
      }
    }
    assert paths[..|paths|] == paths;
  }

  /** A key path is one of the dotted paths. */
  ghost predicate IsListed(paths: seq<string>, path: seq<string>)
  {
    exists i :: 0 <= i < |paths| && Split(paths[i], '.') == path
  }

  lemma ListedSnoc(paths: seq<string>, i: nat, path: seq<string>)
    requires i < |paths|
    ensures IsListed(paths[..i + 1], path) <==> IsListed(paths[..i], path) || Split(paths[i], '.') == path
  {
    if IsListed(paths[..i + 1], path) {
      var j :| 0 <= j < i + 1 && Split(paths[..i + 1][j], '.') == path;
      assert j < i ==> paths[..i][j] == paths[..i + 1][j];
    }
    if IsListed(paths[..i], path) {
      var j :| 0 <= j < i && Split(paths[..i][j], '.') == path;
      assert paths[..i + 1][j] == paths[..i][j];
    }
    if Split(paths[i], '.') == path {
      assert paths[..i + 1][i] == paths[i];
    }
  }

  // ---- stripping ----

  function Strip<N>(v: Value<N>, node: ExcludeNode): Value<N>
    decreases v
  {
    match v
    case VObj(members) =>
      VObj(map k | k in members && !(k in node.children && node.children[k].leaf) ::
        if k in node.children && |node.children[k].children| > 0 then Strip(members[k], node.children[k])
        else members[k])
    case _ => v
  }

  /** The value at a key path, if there is one. */
  function Lookup<N>(v: Value<N>, path: seq<string>): Option<Value<N>>
  {
    if path == [] then Some(v)
    else if v.VObj? && path[0] in v.members then Lookup(v.members[path[0]], path[1..])
    else None
  }

  /** A non-empty prefix of the path is listed. */
  ghost predicate Excluded(node: ExcludeNode, path: seq<string>)
  {
    exists n :: 1 <= n <= |path| && Lists(node, path[..n])
  }

  lemma ListsStep(node: ExcludeNode, path: seq<string>, n: nat)
    requires 1 <= n <= |path|
    ensures Lists(node, path[..n]) <==>
            path[0] in node.children && Lists(node.children[path[0]], path[1..][..n - 1])
  {
    assert path[..n][0] == path[0] && path[..n][1..] == path[1..][..n - 1];
  }

  lemma ExcludedStep(node: ExcludeNode, path: seq<string>)
    requires path != []
    ensures Excluded(node, path) <==>
            path[0] in node.children &&
            (node.children[path[0]].leaf || Excluded(node.children[path[0]], path[1..]))
  {
    var k := path[0];
    ListsStep(node, path, 1);
    assert path[1..][..0] == [];
    if Excluded(node, path) {
      var n :| 1 <= n <= |path| && Lists(node, path[..n]);
      ListsStep(node, path, n);
      assert n > 1 ==> Excluded(node.children[k], path[1..]);
    }
    if k in node.children && Excluded(node.children[k], path[1..]) {
      var n :| 1 <= n <= |path[1..]| && Lists(node.children[k], path[1..][..n]);
      ListsStep(node, path, n + 1);
      assert Excluded(node, path);
    }
  }

  /** Two values are alike at their root: the same scalar or array, or both objects. */
  predicate Alike<N(==)>(v: Value<N>, w: Value<N>)
  {
    if v.VObj? then w.VObj? else v == w
  }

  /** What stripping does, path by path: a path survives exactly when neither it nor a path above it is
      listed, and what it leads to is unchanged up to the removals below it. */
  lemma {:induction false} StripPointwise<N>(v: Value<N>, node: ExcludeNode, path: seq<string>)
    ensures Lookup(Strip(v, node), path).Some? <==> Lookup(v, path).Some? && !Excluded(node, path)
    ensures Lookup(Strip(v, node), path).Some? ==>
              Alike(Lookup(v, path).value, Lookup(Strip(v, node), path).value)
    decreases |path|
  {
    if path != [] {
      ExcludedStep(node, path);
      var k := path[0];
      if v.VObj? && k in v.members && k in node.children && !node.children[k].leaf {
        if |node.children[k].children| > 0 {
          StripPointwise(v.members[k], node.children[k], path[1..]);
        } else {
          NothingBelow(node.children[k], path[1..]);
          AlikeSelf(Lookup(v.members[k], path[1..]));
        }
      } else if v.VObj? && k in v.members {
        AlikeSelf(Lookup(v.members[k], path[1..]));
      }
    }
  }

  lemma AlikeSelf<N>(v: Option<Value<N>>)
    ensures v.Some? ==> Alike(v.value, v.value)
  {
  }

  lemma NothingBelow(node: ExcludeNode, path: seq<string>)
    requires |node.children| == 0
    ensures !Excluded(node, path)
  {
    if path != [] {
      ExcludedStep(node, path);
    }
  }

  /** A value is determined by what its key paths lead to. */
  lemma {:induction false} Extensional<N>(v: Value<N>, w: Value<N>)
    requires forall path :: Lookup(v, path).Some? <==> Lookup(w, path).Some?
    requires forall path :: Lookup(v, path).Some? ==> Alike(Lookup(v, path).value, Lookup(w, path).value)
    ensures v == w
    decreases v
  {
    assert Lookup(v, []) == Some(v) && Lookup(w, []) == Some(w);
    if v.VObj? {
      forall k ensures k in v.members <==> k in w.members {
        LookupOne(v, k);
        LookupOne(w, k);
      }
      forall k | k in v.members ensures v.members[k] == w.members[k] {
        forall path
          ensures Lookup(v.members[k], path).Some? <==> Lookup(w.members[k], path).Some?
          ensures Lookup(v.members[k], path).Some? ==>
                    Alike(Lookup(v.members[k], path).value, Lookup(w.members[k], path).value)
        {
          assert ([k] + path)[1..] == path;
          assert Lookup(v, [k] + path) == Lookup(v.members[k], path);
          assert Lookup(w, [k] + path) == Lookup(w.members[k], path);
        }
        Extensional(v.members[k], w.members[k]);
      }
      assert v.members == w.members;
    }
  }

  lemma LookupOne<N>(v: Value<N>, k: string)
    ensures Lookup(v, [k]).Some? <==> v.VObj? && k in v.members
  {
    assert [k][1..] == [];
  }

  /** Stripping twice is stripping once. */
  lemma StripIdempotent<N>(v: Value<N>, node: ExcludeNode)
    ensures Strip(Strip(v, node), node) == Strip(v, node)
  {
    var s := Strip(v, node);
    var t := Strip(s, node);
    forall path
      ensures Lookup(t, path).Some? <==> Lookup(s, path).Some?
      ensures Lookup(t, path).Some? ==> Alike(Lookup(t, path).value, Lookup(s, path).value)
    {
      StripPointwise(v, node, path);
      StripPointwise(s, node, path);
    }
    Extensional(t, s);
  }

  /** The compiled list strips as the path list says, whatever order or repetition it has. */
  lemma StripByPaths<N>(v: Value<N>, a: ExcludeNode, b: ExcludeNode)
    requires forall path :: Lists(a, path) <==> Lists(b, path)
    ensures Strip(v, a) == Strip(v, b)
  {
    var s, t := Strip(v, a), Strip(v, b);
    forall path
      ensures Lookup(s, path).Some? <==> Lookup(t, path).Some?
      ensures Lookup(s, path).Some? ==> Alike(Lookup(s, path).value, Lookup(t, path).value)
    {
      StripPointwise(v, a, path);
      StripPointwise(v, b, path);
      assert Excluded(a, path) <==> Excluded(b, path);
    }
    Extensional(s, t);
  }

  // ---- numbers ----

  /** A JSON number as a double: zero, a nonzero double by its shortest scientific form, or out of range. */
  datatype Number = Zero | Finite(x: Sci) | Overflow

  /** The forms that strconv.FormatFloat yields. */
  predicate IsDouble(x: Sci) { ValidSci(x) && InRange(x) && NoTrailingZero(x) }

  function NumberText(n: Number): Option<string>
  {
    match n
    case Zero => Some("0")
    case Finite(x) => if IsDouble(x) then Some(FormatES6(Show(x))) else None
    case Overflow => None
  }

  function NumberValue(n: Number): real
  {
    match n
    case Zero => 0.0
    case Finite(x) => if Read(Show(x)).Some? then Es6Number.Denoted(Show(x)) else 0.0
    case Overflow => 0.0
  }

  // ---- equal texts mean equal numbers, and back ----

  lemma {:induction false} ShiftInjective(a: real, b: real, e: int)
    requires Shift(a, e) == Shift(b, e)
    ensures a == b
    decreases if e < 0 then -e else e
  {
    if e > 0 {
      ShiftInjective(a, b, e - 1);
    } else if e < 0 {
      ShiftInjective(a, b, e + 1);
    }
  }

  /** A digit string that neither starts nor ends in a zero. */
  predicate Trimmed(d: string) { d != "" && AllDigits(d) && d[0] != '0' && d[|d| - 1] != '0' }

  /** Prefixes of two digit strings with leading nonzero digits that denote one number are equal. */
  lemma {:induction false} SameDigits(c: string, d: string, m: nat, n: nat)
    requires AllDigits(c) && AllDigits(d) && 0 < m <= |c| && 0 < n <= |d| && c[0] != '0' && d[0] != '0'
    requires NatPrefix(c, m) == NatPrefix(d, n)
    ensures m == n && c[..m] == d[..n]
  {
    assert c[m - 1] == d[n - 1];
    if m > 1 {
      PrefixPositive(c, m - 1);
    }
    if n > 1 {
      PrefixPositive(d, n - 1);
    }
    if m > 1 && n > 1 {
      SameDigits(c, d, m - 1, n - 1);
      assert c[..m] == c[..m - 1] + [c[m - 1]] && d[..n] == d[..n - 1] + [d[n - 1]];
    } else {
      assert m == 1 && n == 1;
      assert c[..1] == [c[0]] && d[..1] == [d[0]];
    }
  }

  lemma LastDigit(d: string)
    requires Trimmed(d)
    ensures NatValue(d) % 10 != 0
  {
    assert NatValue(d) == 10 * NatPrefix(d, |d| - 1) + (d[|d| - 1] as int - '0' as int);
  }

  lemma ShiftedEndsInZero(m: nat, k: nat)
    ensures k > 0 ==> NatShift(m, k) % 10 == 0
  {
  }

  lemma SameMagnitude(c: string, d: string, e: int, f: int)
    requires Trimmed(c) && Trimmed(d) && e >= f
    requires Shift(NatValue(c) as real, e) == Shift(NatValue(d) as real, f)
    ensures c == d && e == f
  {
    var k: nat := e - f;
    ShiftNat(NatValue(c), k, f);
    ShiftInjective(NatShift(NatValue(c), k) as real, NatValue(d) as real, f);
    LastDigit(d);
    ShiftedEndsInZero(NatValue(c), k);
    SameDigits(c, d, |c|, |d|);
    assert c[..|c|] == c && d[..|d|] == d;
  }

  lemma DoubleTrimmed(x: Sci)
    requires IsDouble(x)
    ensures Trimmed(Digits(x))
  {
    DigitsAll(x);
  }

  lemma MagnitudePositive(x: Sci)
    requires IsDouble(x)
    ensures AllDigits(Digits(x)) && Magnitude(x) > 0.0
  {
    DigitsAll(x);
    LeadPositive(Digits(x));
  }

  /** The canonical text of a double depends only on its sign, digits and exponent. */
  lemma TextOfDouble(x: Sci)
    requires IsDouble(x)
    ensures NumberText(Finite(x)) == Some(WithSign(x.neg, Arrange(Digits(x), x.exp)))
    ensures NumberValue(Finite(x)) == Signed(x.neg, Magnitude(x)) != 0.0
  {
    hide Read, Show, Dissect, Arrange, AllDigits;
    DoubleTrimmed(x);
    TrimValue(Digits(x));
    assert TrimZeros(Digits(x)) == Digits(x);
    DissectSci(x, Digits(x));
    DigitsAll(x);
    SciValue(x);
    MagnitudePositive(x);
  }

  /** Two doubles have the same canonical text exactly when they are the same number. */
  lemma SameTextExactly(x: Sci, y: Sci)
    requires IsDouble(x) && IsDouble(y)
    ensures NumberText(Finite(x)) == NumberText(Finite(y)) <==> NumberValue(Finite(x)) == NumberValue(Finite(y))
  {
    TextOfDouble(x);
    TextOfDouble(y);
    FormatKeepsValueExactly(x);
    FormatKeepsValueExactly(y);
    if NumberValue(Finite(x)) == NumberValue(Finite(y)) {
      MagnitudePositive(x);
      MagnitudePositive(y);
      SameForm(x, y);
    }
  }

  lemma SameForm(x: Sci, y: Sci)
    requires IsDouble(x) && IsDouble(y)
    requires AllDigits(Digits(x)) && AllDigits(Digits(y)) && Magnitude(x) == Magnitude(y)
    ensures Digits(x) == Digits(y) && x.exp == y.exp
  {
    DoubleTrimmed(x);
    DoubleTrimmed(y);
    DigitsAll(x);
    DigitsAll(y);
    var e, f := x.exp - |x.frac|, y.exp - |y.frac|;
    if e >= f {
      SameMagnitude(Digits(x), Digits(y), e, f);
    } else {
      SameMagnitude(Digits(y), Digits(x), f, e);
    }
  }

  predicate NumChars(s: string) { forall i :: 0 <= i < |s| ==> IsNumChar(s[i]) }

  lemma NumCharsConcat(a: string, b: string)
    requires NumChars(a) && NumChars(b)
    ensures NumChars(a + b)
  {
  }

  lemma FixedChars(digits: string, decExp: int)
    requires digits != "" && AllDigits(digits)
    ensures NumChars(Fixed(digits, decExp)) && Fixed(digits, decExp) != "" && IsDigit(Fixed(digits, decExp)[0])
  {
    if decExp < 0 {
      NumCharsConcat("0.", Zeros(-decExp - 1));
      NumCharsConcat("0." + Zeros(-decExp - 1), digits);
    }
  }

  lemma ExponentialChars(digits: string, decExp: int)
    requires digits != "" && AllDigits(digits)
    ensures Exponential(digits, decExp) != "" && NumChars(Exponential(digits, decExp)) && Exponential(digits, decExp)[0] == digits[0]
  {
    var m, e := PointAfterFirst(digits[0], digits[1..]), ExponentText(decExp);
    if decExp < 0 {
      NumCharsConcat("-", PrintNat(-decExp));
    } else {
      NumCharsConcat("+", PrintNat(decExp));
    }
    NumCharsConcat(m, "e");
    NumCharsConcat(m + "e", e);
  }

  lemma ArrangeIsNumText(neg: bool, digits: string, decExp: int)
    requires digits != "" && AllDigits(digits)
    ensures IsNumText(WithSign(neg, Arrange(digits, decExp)))
  {
    hide Fixed, Exponential;
    var a := Arrange(digits, decExp);
    FixedChars(digits, decExp);
    ExponentialChars(digits, decExp);
    if neg {
      NumCharsConcat("-", a);
    }
  }

  lemma TextsGood()
    ensures GoodTexts(NumberText)
  {
    forall n | NumberText(n).Some? ensures IsNumText(NumberText(n).value) {
      if n.Finite? {
        TextOfDouble(n.x);
        DigitsAll(n.x);
        ArrangeIsNumText(n.x.neg, Digits(n.x), n.x.exp);
      }
    }
  }

  lemma TextsFaithful()
    ensures Faithful(NumberText, NumberValue)
  {
    forall m, n | NumberText(m).Some? && NumberText(n).Some?
      ensures NumberText(m) == NumberText(n) <==> NumberValue(m) == NumberValue(n)
    {
      if m.Finite? && n.Finite? {
        SameTextExactly(m.x, n.x);
      } else if m.Finite? {
        ZeroApart(m.x);
      } else if n.Finite? {
        ZeroApart(n.x);
      }
    }
  }

  lemma ZeroReads()
    ensures Read("0").Some? && Es6Number.Denoted("0") == 0.0
  {
    ReadWhole(false, "0");
    assert NatPrefix("0", 0) == 0 && "0" + "" == "0";
  }

  lemma ZeroApart(x: Sci)
    requires IsDouble(x)
    ensures NumberText(Finite(x)) != NumberText(Zero) && NumberValue(Finite(x)) != NumberValue(Zero)
  {
    hide FormatES6, Show, Read, Es6Number.Denoted, Signed, Arrange, WithSign;
    TextOfDouble(x);
    FormatKeepsValueExactly(x);
    ZeroReads();
  }

  // ---- the hash input ----

  /** Two payloads have the same hash input exactly when, the excluded paths removed, they are
      the same JSON value, numbers being compared as numbers. */
  lemma HashInputExactly(v: Value<Number>, w: Value<Number>, node: ExcludeNode)
    requires Encodable(Strip(v, node), NumberText) && Encodable(Strip(w, node), NumberText)
    ensures Canonical(Strip(v, node), NumberText) == Canonical(Strip(w, node), NumberText) <==>
            CanonicalJson.Denoted(Strip(v, node), NumberValue) == CanonicalJson.Denoted(Strip(w, node), NumberValue)
  {
    TextsGood();
    TextsFaithful();
    CanonicalDenotes(Strip(v, node), Strip(w, node), NumberText, NumberValue);
  }

  method HashInput(payload: Value<Number>, excludePaths: seq<string>)
    returns (r: Option<string>, stripped: Value<Number>)
    ensures r == if Encodable(stripped, NumberText) then Some(Canonical(stripped, NumberText)) else None
    ensures r.Some? ==> var t := ReadText(r.value); t.Some? && Ordered(t.value) && Stands(t.value, stripped, NumberText)
    ensures forall path ::
      Lookup(stripped, path).Some? <==>
        Lookup(payload, path).Some? && !exists n :: 1 <= n <= |path| && IsListed(excludePaths, path[..n])
    ensures forall path :: Lookup(stripped, path).Some? ==>
      Alike(Lookup(payload, path).value, Lookup(stripped, path).value)
  {
    var root := CompileExcludePaths(excludePaths);
    var v := Strip(payload, root);
    stripped := v;
    TextsGood();
    r := JsonWriter.Marshal(v, NumberText);
    forall path
      ensures Lookup(v, path).Some? <==>
        Lookup(payload, path).Some? && !exists n :: 1 <= n <= |path| && IsListed(excludePaths, path[..n])
      ensures Lookup(v, path).Some? ==> Alike(Lookup(payload, path).value, Lookup(v, path).value)
    {
      StripPointwise(payload, root, path);
    }
  }
}
