/**
 Normalisation of percent escapes (RFC 3986, section 6.2.2.2) as the URL canonicaliser does it:
 escapes of unreserved characters are decoded, the hex digits of all others are upper-cased.
 A character of a path stands for one byte.
 */
module Percent {
  import opened Text
  import opened UrlPath

  predicate IsHex(c: char) { '0' <= c <= '9' || 'a' <= c <= 'f' || 'A' <= c <= 'F' }

  function HexValue(c: char): (v: int)
    requires IsHex(c)
    ensures 0 <= v < 16
  {
    if '0' <= c <= '9' then c as int - '0' as int
    else if 'a' <= c <= 'f' then c as int - 'a' as int + 10
    else c as int - 'A' as int + 10
  }

  function UpperHex(c: char): char { if 'a' <= c <= 'f' then c - 'a' + 'A' else c }

  predicate IsUnreserved(c: char)
  {
    'A' <= c <= 'Z' || 'a' <= c <= 'z' || '0' <= c <= '9' || c == '-' || c == '.' || c == '_' || c == '~'
  }

  function Octet(h: char, l: char): (o: char)
    requires IsHex(h) && IsHex(l)
    ensures o as int < 256
  {
    (16 * HexValue(h) + HexValue(l)) as char
  }

  // ---- a path as a sequence of literal characters and escapes ----

  datatype Token = Lit(c: char) | Esc(h: char, l: char)

  predicate EscapeAt(s: string, i: nat)
  {
    i + 2 < |s| && s[i] == '%' && IsHex(s[i + 1]) && IsHex(s[i + 2])
  }

  predicate WellFormed(toks: seq<Token>)
  {
    forall i :: 0 <= i < |toks| ==> toks[i].Esc? ==> IsHex(toks[i].h) && IsHex(toks[i].l)
  }

  function Tokenize(s: string): (toks: seq<Token>)
    ensures WellFormed(toks)
  {
    if s == "" then []
    else if EscapeAt(s, 0) then [Esc(s[1], s[2])] + Tokenize(s[3..])
    else [Lit(s[0])] + Tokenize(s[1..])
  }

  /** The normal form of one token: a literal, or an upper-case escape of a reserved octet. */
  function Canon(t: Token): (c: Token)
    requires t.Esc? ==> IsHex(t.h) && IsHex(t.l)
    ensures c.Esc? ==> IsHex(c.h) && IsHex(c.l)
  {
    if t.Lit? then t
    else if IsUnreserved(Octet(t.h, t.l)) then Lit(Octet(t.h, t.l))
    else Esc(UpperHex(t.h), UpperHex(t.l))
  }

  function CanonAll(toks: seq<Token>): (r: seq<Token>)
    requires WellFormed(toks)
    ensures |r| == |toks| && WellFormed(r)
    ensures forall i :: 0 <= i < |toks| ==> r[i] == Canon(toks[i])
  {
    seq(|toks|, i requires 0 <= i < |toks| => Canon(toks[i]))
  }

  function Spell(t: Token): (s: string)
    ensures s != ""
  {
    if t.Lit? then [t.c] else ['%', t.h, t.l]
  }

  function SpellAll(toks: seq<Token>): string
  {
    if toks == [] then "" else Spell(toks[0]) + SpellAll(toks[1..])
  }

  function Normalize(s: string): string { SpellAll(CanonAll(Tokenize(s))) }

  method NormalizePercentEncoding(s: string) returns (out: string)
    ensures out == Normalize(s)
  {
    out := "";
    var i := 0;
    assert s[0..] == s;
    ghost var all := Normalize(s);
    while i < |s|
      invariant 0 <= i <= |s|
      invariant out + Normalize(s[i..]) == all
    {
      var c := s[i];
      ghost var before, at := out, i;
      if EscapeAt(s, i) {
        var octet := Octet(s[i + 1], s[i + 2]);
        if IsUnreserved(octet) {
          out := out + [octet];
        } else {
          out := out + "%";
          out := out + [UpperHex(s[i + 1])];
          out := out + [UpperHex(s[i + 2])];
        }
        i := i + 3;
      } else {
        out := out + [c];
        i := i + 1;
      }
      Emitted(s, at, before);
    }
  }

  lemma Emitted(s: string, i: nat, out: string)
    requires i < |s|
    ensures EscapeAt(s, i) && IsUnreserved(Octet(s[i + 1], s[i + 2])) ==>
              out + Normalize(s[i..]) == out + [Octet(s[i + 1], s[i + 2])] + Normalize(s[i + 3..])
    ensures EscapeAt(s, i) && !IsUnreserved(Octet(s[i + 1], s[i + 2])) ==>
              out + Normalize(s[i..]) ==
              out + "%" + [UpperHex(s[i + 1])] + [UpperHex(s[i + 2])] + Normalize(s[i + 3..])
    ensures !EscapeAt(s, i) ==> out + Normalize(s[i..]) == out + [s[i]] + Normalize(s[i + 1..])
  {
    Advance(s, i);
    if EscapeAt(s, i) {
      var rest := Normalize(s[i + 3..]);
      if IsUnreserved(Octet(s[i + 1], s[i + 2])) {
        Associate(out, [Octet(s[i + 1], s[i + 2])], rest);
      } else {
        var a, b := [UpperHex(s[i + 1])], [UpperHex(s[i + 2])];
        assert Spell(Canon(Esc(s[i + 1], s[i + 2]))) == "%" + a + b;
        Associate(out, "%" + a + b, rest);
        assert out + ("%" + a + b) == out + "%" + a + b;
      }
    } else {
      Associate(out, [s[i]], Normalize(s[i + 1..]));
    }
  }

  lemma Associate(a: string, b: string, c: string)
    ensures a + (b + c) == a + b + c
  {
  }

  lemma CanonCons(t: Token, toks: seq<Token>)
    requires WellFormed([t] + toks)
    ensures WellFormed(toks) && (t.Esc? ==> IsHex(t.h) && IsHex(t.l))
    ensures CanonAll([t] + toks) == [Canon(t)] + CanonAll(toks)
    ensures SpellAll(CanonAll([t] + toks)) == Spell(Canon(t)) + SpellAll(CanonAll(toks))
  {
    assert ([t] + toks)[0] == t;
    forall i | 0 <= i < |toks| ensures toks[i] == ([t] + toks)[i + 1] {
    }
    assert ([Canon(t)] + CanonAll(toks))[1..] == CanonAll(toks);
  }

  lemma Advance(s: string, i: nat)
    requires i < |s|
    ensures EscapeAt(s, i) ==> Normalize(s[i..]) == Spell(Canon(Esc(s[i + 1], s[i + 2]))) + Normalize(s[i + 3..])
    ensures !EscapeAt(s, i) ==> Normalize(s[i..]) == [s[i]] + Normalize(s[i + 1..])
  {
    var r := s[i..];
    if EscapeAt(s, i) {
      assert EscapeAt(r, 0) && r[3..] == s[i + 3..];
      CanonCons(Esc(r[1], r[2]), Tokenize(r[3..]));
    } else {
      assert !EscapeAt(r, 0) && r[1..] == s[i + 1..];
      CanonCons(Lit(r[0]), Tokenize(r[1..]));
    }
  }

  /** An escape, in whatever case: the character itself if it is unreserved, else the escape in upper case. */
  lemma EscapeNormal(i: nat, j: nat, h: char, l: char, rest: string)
    requires i < 16 && j < 16
    requires (h == "0123456789abcdef"[i] || h == "0123456789ABCDEF"[i]) && (l == "0123456789abcdef"[j] || l == "0123456789ABCDEF"[j])
    ensures var o := (16 * i + j) as char;
            var unreserved := 'A' <= o <= 'Z' || 'a' <= o <= 'z' || '0' <= o <= '9' || o in "-._~";
            Normalize(['%', h, l] + rest)
              == (if unreserved then [o] else ['%', "0123456789ABCDEF"[i], "0123456789ABCDEF"[j]]) + Normalize(rest)
  {
    DigitOf(i, h);
    DigitOf(j, l);
    EscapeFirst(h, l, rest);
    hide HexValue, IsHex, UpperHex, Normalize;
  }

  lemma EscapeFirst(h: char, l: char, rest: string)
    requires IsHex(h) && IsHex(l)
    ensures Normalize(['%', h, l] + rest) == Spell(Canon(Esc(h, l))) + Normalize(rest)
  {
    hide HexValue, UpperHex, Normalize, Spell, Canon;
    var s := ['%', h, l] + rest;
    assert s[0..] == s && s[3..] == rest;
    Advance(s, 0);
  }

  lemma DigitOf(i: nat, h: char)
    requires i < 16 && (h == "0123456789abcdef"[i] || h == "0123456789ABCDEF"[i])
    ensures IsHex(h) && HexValue(h) == i && UpperHex(h) == "0123456789ABCDEF"[i]
  {
  }

  /** Every other character stays, also a percent sign that two hex digits do not follow. */
  lemma OtherNormal(c: char, rest: string)
    requires c == '%' ==> |rest| < 2 || rest[0] !in "0123456789abcdefABCDEF" || rest[1] !in "0123456789abcdefABCDEF"
    ensures Normalize([c] + rest) == [c] + Normalize(rest)
  {
    var s := [c] + rest;
    assert s[0..] == s && s[1..] == rest;
    if EscapeAt(s, 0) {
      HexListed(rest[0]);
      HexListed(rest[1]);
      assert false;
    }
    Advance(s, 0);
  }

  lemma HexListed(c: char)
    requires IsHex(c)
    ensures c in "0123456789abcdefABCDEF"
  {
    var all := "0123456789abcdefABCDEF";
    var at := if c <= '9' then c as int - '0' as int else if c >= 'a' then 10 + c as int - 'a' as int else 16 + c as int - 'A' as int;
    assert all[at] == c;
  }

  // ---- reading the normal form back ----

  predicate IsHexLit(t: Token) { t.Lit? && IsHex(t.c) }

  /** A bare `%` that two decoded or literal hex digits turn into an escape of its own. */
  predicate Forged(toks: seq<Token>)
    requires WellFormed(toks)
  {
    |toks| >= 3 && toks[0] == Lit('%') && IsHexLit(Canon(toks[1])) && IsHexLit(Canon(toks[2]))
  }

  lemma Shorter(toks: seq<Token>, n: nat)
    requires WellFormed(toks) && n <= |toks|
    ensures WellFormed(toks[n..])
    ensures CanonAll(toks)[n..] == CanonAll(toks[n..])
  {
  }

  /** The tokens of the normal form. */
  function Reread(toks: seq<Token>): (r: seq<Token>)
    requires WellFormed(toks)
    ensures WellFormed(r)
  {
    if toks == [] then []
    else if Forged(toks) then [Esc(Canon(toks[1]).c, Canon(toks[2]).c)] + Reread(toks[3..])
    else [Canon(toks[0])] + Reread(toks[1..])
  }

  lemma {:induction false} RereadIsTokenize(toks: seq<Token>)
    requires WellFormed(toks)
    ensures Tokenize(SpellAll(CanonAll(toks))) == Reread(toks)
  {
    if toks != [] {
      var s := SpellAll(CanonAll(toks));
      var rest := SpellAll(CanonAll(toks[1..]));
      Shorter(toks, 1);
      CanonCons(toks[0], toks[1..]);
      assert toks == [toks[0]] + toks[1..];
      assert s == Spell(Canon(toks[0])) + rest;
      FirstTwo(toks[1..]);
      if Forged(toks) {
        Shorter(toks, 3);
        assert toks[1..][2..] == toks[3..];
        assert s[3..] == SpellAll(CanonAll(toks[3..]));
        RereadIsTokenize(toks[3..]);
      } else {
        RereadIsTokenize(toks[1..]);
        if Canon(toks[0]).Esc? {
          assert s[3..] == rest;
        } else {
          assert s[1..] == rest;
          assert !EscapeAt(s, 0);
        }
      }
    }
  }

  /** The first two characters of a normal form are hex digits only as literals. */
  lemma FirstTwo(toks: seq<Token>)
    requires WellFormed(toks)
    ensures var s := SpellAll(CanonAll(toks));
            (|s| >= 2 && IsHex(s[0]) && IsHex(s[1])) <==>
            (|toks| >= 2 && IsHexLit(Canon(toks[0])) && IsHexLit(Canon(toks[1])))
    ensures |toks| >= 2 && IsHexLit(Canon(toks[0])) && IsHexLit(Canon(toks[1])) ==>
              SpellAll(CanonAll(toks)) == [Canon(toks[0]).c, Canon(toks[1]).c] + SpellAll(CanonAll(toks[2..]))
  {
    FirstOne(toks);
    if toks != [] && IsHexLit(Canon(toks[0])) {
      Shorter(toks, 1);
      FirstOne(toks[1..]);
      assert |toks| > 1 ==> toks[1..][1..] == toks[2..];
    }
  }

  lemma FirstOne(toks: seq<Token>)
    requires WellFormed(toks)
    ensures var s := SpellAll(CanonAll(toks));
            (s != "" && IsHex(s[0])) <==> (toks != [] && IsHexLit(Canon(toks[0])))
    ensures toks != [] && IsHexLit(Canon(toks[0])) ==>
              SpellAll(CanonAll(toks)) == [Canon(toks[0]).c] + SpellAll(CanonAll(toks[1..]))
  {
    if toks != [] {
      CanonCons(toks[0], toks[1..]);
      assert toks == [toks[0]] + toks[1..];
    }
  }

  /** No forged escape anywhere. */
  predicate Honest(toks: seq<Token>)
    requires WellFormed(toks)
  {
    toks == [] || (!Forged(toks) && Honest(toks[1..]))
  }

  /** Every forged escape is already in normal form. */
  predicate Stable(toks: seq<Token>)
    requires WellFormed(toks)
  {
    if toks == [] then true
    else if Forged(toks) then
      var e := Esc(Canon(toks[1]).c, Canon(toks[2]).c);
      Canon(e) == e && Stable(toks[3..])
    else Stable(toks[1..])
  }

  lemma {:induction false} ForgedSpelling(toks: seq<Token>)
    requires WellFormed(toks) && Forged(toks)
    ensures WellFormed(toks[3..])
    ensures SpellAll(CanonAll(toks)) ==
            Spell(Esc(Canon(toks[1]).c, Canon(toks[2]).c)) + SpellAll(CanonAll(toks[3..]))
  {
    CanonCons(toks[0], toks[1..]);
    assert toks == [toks[0]] + toks[1..];
    FirstTwo(toks[1..]);
    assert toks[1..][2..] == toks[3..];
  }

  lemma {:induction false} NormalizeNeverLonger(toks: seq<Token>)
    requires WellFormed(toks)
    ensures |SpellAll(CanonAll(toks))| <= |SpellAll(toks)|
  {
    if toks != [] {
      CanonCons(toks[0], toks[1..]);
      assert toks == [toks[0]] + toks[1..];
      NormalizeNeverLonger(toks[1..]);
    }
  }

  lemma {:induction false} SpellTokenize(s: string)
    ensures SpellAll(Tokenize(s)) == s
  {
    if s != "" {
      if EscapeAt(s, 0) {
        SpellTokenize(s[3..]);
        assert ([Esc(s[1], s[2])] + Tokenize(s[3..]))[1..] == Tokenize(s[3..]);
        assert s == ['%', s[1], s[2]] + s[3..];
      } else {
        SpellTokenize(s[1..]);
        assert ([Lit(s[0])] + Tokenize(s[1..]))[1..] == Tokenize(s[1..]);
      }
    }
  }

  /** Normalising the normal form again changes nothing exactly when every forged escape is normal. */
  lemma {:induction false} RereadStable(toks: seq<Token>)
    requires WellFormed(toks)
    ensures SpellAll(CanonAll(Reread(toks))) == SpellAll(CanonAll(toks)) <==> Stable(toks)
  {
    if toks != [] {
      if Forged(toks) {
        var e := Esc(Canon(toks[1]).c, Canon(toks[2]).c);
        ForgedSpelling(toks);
        CanonCons(e, Reread(toks[3..]));
        RereadStable(toks[3..]);
        NormalizeAgain(toks[3..]);
        var a, b := SpellAll(CanonAll(Reread(toks[3..]))), SpellAll(CanonAll(toks[3..]));
        EqualHeads(Spell(Canon(e)), Spell(e), a, b);
        assert Canon(e) == e <==> Spell(Canon(e)) == Spell(e) by {
          if Canon(e).Esc? {
            assert Spell(Canon(e))[1] == Canon(e).h && Spell(Canon(e))[2] == Canon(e).l;
            assert Spell(e)[1] == e.h && Spell(e)[2] == e.l;
          }
        }
      } else {
        Shorter(toks, 1);
        var c := Canon(toks[0]);
        CanonCons(toks[0], toks[1..]);
        assert toks == [toks[0]] + toks[1..];
        CanonCons(c, Reread(toks[1..]));
        CanonTwice(toks[0]);
        RereadStable(toks[1..]);
        NormalizeAgain(toks[1..]);
        EqualHeads(Spell(c), Spell(c), SpellAll(CanonAll(Reread(toks[1..]))), SpellAll(CanonAll(toks[1..])));
      }
    }
  }

  lemma CanonTwice(t: Token)
    requires t.Esc? ==> IsHex(t.h) && IsHex(t.l)
    ensures Canon(Canon(t)) == Canon(t)
  {
    if Canon(t).Esc? {
      assert HexValue(UpperHex(t.h)) == HexValue(t.h) && HexValue(UpperHex(t.l)) == HexValue(t.l);
    }
  }

  lemma EqualHeads(x: string, y: string, a: string, b: string)
    requires |x| <= |y| && |a| <= |b|
    ensures x + a == y + b <==> x == y && a == b
  {
    if x + a == y + b {
      assert |x + a| == |y + b|;
      assert x == (x + a)[..|x|] && y == (y + b)[..|y|];
      assert a == (x + a)[|x|..] && b == (y + b)[|y|..];
    }
  }

  lemma NormalizeAgain(toks: seq<Token>)
    requires WellFormed(toks)
    ensures |SpellAll(CanonAll(Reread(toks)))| <= |SpellAll(CanonAll(toks))|
  {
    RereadIsTokenize(toks);
    SpellTokenize(SpellAll(CanonAll(toks)));
    NormalizeNeverLonger(Reread(toks));
  }

  /** When normalisation is idempotent: exactly when no forged escape needs normalising itself. */
  lemma NormalizeIdempotentExactly(s: string)
    ensures Normalize(Normalize(s)) == Normalize(s) <==> Stable(Tokenize(s))
  {
    RereadIsTokenize(Tokenize(s));
    RereadStable(Tokenize(s));
  }

  // ---- what the escapes mean ----

  /** The octets a path denotes. */
  function Octets(toks: seq<Token>): (r: seq<char>)
    requires WellFormed(toks)
    ensures |r| == |toks|
  {
    if toks == [] then []
    else (if toks[0].Lit? then [toks[0].c] else [Octet(toks[0].h, toks[0].l)]) + Octets(toks[1..])
  }

  function Decode(s: string): seq<char> { Octets(Tokenize(s)) }

  lemma CanonKeepsOctet(t: Token)
    requires t.Esc? ==> IsHex(t.h) && IsHex(t.l)
    ensures Octets([Canon(t)]) == Octets([t])
  {
    if t.Esc? {
      assert HexValue(UpperHex(t.h)) == HexValue(t.h) && HexValue(UpperHex(t.l)) == HexValue(t.l);
    }
  }

  lemma {:induction false} CanonAllOctets(toks: seq<Token>)
    requires WellFormed(toks)
    ensures Octets(CanonAll(toks)) == Octets(toks)
  {
    if toks != [] {
      CanonCons(toks[0], toks[1..]);
      assert toks == [toks[0]] + toks[1..];
      CanonKeepsOctet(toks[0]);
      CanonAllOctets(toks[1..]);
      assert CanonAll(toks)[1..] == CanonAll(toks[1..]);
    }
  }

  /** Reading back the normal form finds as many tokens exactly when no escape was forged. */
  lemma {:induction false} RereadLength(toks: seq<Token>)
    requires WellFormed(toks)
    ensures |Reread(toks)| <= |toks|
    ensures |Reread(toks)| == |toks| <==> Honest(toks)
    ensures Honest(toks) ==> Reread(toks) == CanonAll(toks)
  {
    if toks != [] {
      if Forged(toks) {
        RereadLength(toks[3..]);
      } else {
        RereadLength(toks[1..]);
        CanonCons(toks[0], toks[1..]);
        assert toks == [toks[0]] + toks[1..];
      }
    }
  }

  /** Normalisation keeps the octets a path denotes exactly when it forges no escape. */
  lemma NormalizeKeepsOctetsExactly(s: string)
    ensures Decode(Normalize(s)) == Decode(s) <==> Honest(Tokenize(s))
  {
    RereadIsTokenize(Tokenize(s));
    RereadLength(Tokenize(s));
    CanonAllOctets(Tokenize(s));
  }

  lemma {:induction false} NoBarePercentHonest(toks: seq<Token>)
    requires WellFormed(toks) && Lit('%') !in toks
    ensures Honest(toks)
  {
    if toks != [] {
      assert toks[0] in toks;
      NoBarePercentHonest(toks[1..]);
    }
  }

  /** On paths whose every `%` starts an escape, equal normal forms mean equal normal tokens. */
  lemma NormalFormIsCanonical(s: string, t: string)
    requires Lit('%') !in Tokenize(s) && Lit('%') !in Tokenize(t)
    ensures Normalize(s) == Normalize(t) <==> CanonAll(Tokenize(s)) == CanonAll(Tokenize(t))
  {
    NoBarePercentHonest(Tokenize(s));
    NoBarePercentHonest(Tokenize(t));
    RereadIsTokenize(Tokenize(s));
    RereadIsTokenize(Tokenize(t));
    RereadLength(Tokenize(s));
    RereadLength(Tokenize(t));
  }

  // ---- the pipeline ----

  function Pipeline(path: string): string
  {
    var n := Normalize(Reference(path));
    if n == "" then "/" else n
  }

  method NormalizePath(path: string) returns (r: string)
    ensures r == Pipeline(path)
    ensures r == if Normalize(Reference(path)) == "" then "/" else Normalize(Reference(path))
  {
    var clean := RemoveDotSegments(path);
    r := NormalizePercentEncoding(clean);
    if r == "" {
      r := "/";
    }
  }

  lemma {:induction false} TokenizeAtSlash(a: string, b: string)
    ensures Tokenize(a + "/" + b) == Tokenize(a) + [Lit('/')] + Tokenize(b)
  {
    var s := a + "/" + b;
    if a == "" {
      assert s[1..] == b;
    } else if EscapeAt(a, 0) {
      assert EscapeAt(s, 0) && s[3..] == a[3..] + "/" + b;
      TokenizeAtSlash(a[3..], b);
    } else {
      assert s[|a|] == '/';
      assert EscapeAt(s, 0) ==> |a| >= 3 || |a| == 1 || |a| == 2;
      assert !EscapeAt(s, 0);
      assert s[1..] == a[1..] + "/" + b;
      TokenizeAtSlash(a[1..], b);
    }
  }

  lemma {:induction false} SpellConcat(x: seq<Token>, y: seq<Token>)
    ensures SpellAll(x + y) == SpellAll(x) + SpellAll(y)
  {
    if x == [] {
      assert x + y == y;
    } else {
      assert (x + y)[1..] == x[1..] + y;
      SpellConcat(x[1..], y);
    }
  }

  lemma NormalizeAtSlash(a: string, b: string)
    ensures Normalize(a + "/" + b) == Normalize(a) + "/" + Normalize(b)
  {
    TokenizeAtSlash(a, b);
    var x, y := Tokenize(a), Tokenize(b);
    assert CanonAll(x + [Lit('/')] + y) == CanonAll(x) + ([Lit('/')] + CanonAll(y));
    SpellConcat(CanonAll(x), [Lit('/')] + CanonAll(y));
    assert ([Lit('/')] + CanonAll(y))[1..] == CanonAll(y);
  }

  function NormalizeEach(segs: seq<string>): (r: seq<string>)
    ensures |r| == |segs|
    ensures forall i :: 0 <= i < |segs| ==> r[i] == Normalize(segs[i])
  {
    seq(|segs|, i requires 0 <= i < |segs| => Normalize(segs[i]))
  }

  lemma {:induction false} NoSlash(s: string)
    requires '/' !in s
    ensures '/' !in Normalize(s)
  {
    if s != "" {
      Advance(s, 0);
      assert s[0..] == s;
      if EscapeAt(s, 0) {
        NoSlash(s[3..]);
      } else {
        NoSlash(s[1..]);
      }
    }
  }

  /** Normalisation works segment by segment. */
  lemma {:induction false} NormalizeJoin(segs: seq<string>)
    requires segs != []
    ensures Normalize(Join(segs, '/')) == Join(NormalizeEach(segs), '/')
  {
    if |segs| > 1 {
      NormalizeJoin(segs[1..]);
      NormalizeAtSlash(segs[0], Join(segs[1..], '/'));
      assert Join(segs, '/') == segs[0] + "/" + Join(segs[1..], '/');
      assert NormalizeEach(segs)[1..] == NormalizeEach(segs[1..]);
    }
  }

  lemma SplitNormalize(path: string)
    ensures Split(Normalize(path), '/') == NormalizeEach(Split(path, '/'))
  {
    var segs := Split(path, '/');
    JoinSplit(path, '/');
    NormalizeJoin(segs);
    forall p | p in NormalizeEach(segs) ensures '/' !in p {
      var i :| 0 <= i < |segs| && p == Normalize(segs[i]);
      NoSlash(segs[i]);
    }
    SplitJoin(NormalizeEach(segs), '/');
  }

  /** What follows a leading dot, plain or escaped in either case. */
  function AfterDot(s: string): Option<string>
  {
    if "." <= s then Some(s[1..])
    else if "%2e" <= s || "%2E" <= s then Some(s[3..])
    else None
  }

  /** The twelve spellings of a dot segment. */
  predicate SpellsDot(seg: string)
  {
    AfterDot(seg).Some? && (AfterDot(seg).value == "" || AfterDot(AfterDot(seg).value) == Some(""))
  }

  lemma DotHead(s: string)
    ensures AfterDot(s).Some? ==> Normalize(s) == "." + Normalize(AfterDot(s).value)
    ensures AfterDot(s).None? && s != "" ==> Normalize(s) != "" && Normalize(s)[0] != '.'
  {
    if s != "" {
      Advance(s, 0);
      assert s[0..] == s;
      assert "%2e" <= s || "%2E" <= s ==> EscapeAt(s, 0);
      if EscapeAt(s, 0) {
        var h, l := s[1], s[2];
        assert HexValue('2') == 2 && HexValue('e') == 14 && HexValue('E') == 14;
        assert Octet(h, l) == '.' <==> h == '2' && (l == 'e' || l == 'E');
        assert "%2e" <= s <==> h == '2' && l == 'e';
        assert "%2E" <= s <==> h == '2' && l == 'E';
      }
    }
  }

  /** A segment whose normal form is a dot segment is one of the spellings of it. */
  lemma NormalizesToDot(seg: string)
    ensures IsDot(Normalize(seg)) <==> SpellsDot(seg)
  {
    DotHead(seg);
    EmptyNormal(seg);
    if AfterDot(seg).Some? {
      var r := AfterDot(seg).value;
      EmptyNormal(r);
      DotHead(r);
      var n := Normalize(r);
      assert "." + n == "." <==> n == "";
      assert "." + n == ".." <==> n == "." by {
        assert ("." + n)[1..] == n;
      }
      if AfterDot(r).Some? {
        var m := Normalize(AfterDot(r).value);
        EmptyNormal(AfterDot(r).value);
        assert "." + m == "." <==> m == "";
      }
    }
  }

  /** When the canonical path is a fixed point of the pipeline: exactly when no segment left after
      dot removal spells a dot segment, and percent normalisation is itself stable on that path. */
  lemma PipelineIdempotentExactly(path: string)
    ensures Pipeline(Pipeline(path)) == Pipeline(path) <==>
            (forall seg :: seg in Split(Reference(path), '/') ==> !SpellsDot(seg)) &&
            Stable(Tokenize(Reference(path)))
  {
    var q := Reference(path);
    var n := Normalize(q);
    EncodedDots(q);
    NormalizeIdempotentExactly(q);
    EmptyNormal(q);
    EmptyNormal(n);
    if n == "" {
      RootFixed();
    } else if NoDot(Split(n, '/')) {
      PlainFixed(n);
    } else {
      RootFixed();
      DotShortens(n);
      SpellTokenize(Reference(n));
      NormalizeNeverLonger(Tokenize(Reference(n)));
    }
  }

  lemma RootFixed()
    ensures NoDot(Split("/", '/')) && Reference("/") == "/"
  {
    assert "/" == "" + "/" + "";
    SplitCons("", "", '/');
    PlainFixed("/");
  }

  lemma EncodedDots(q: string)
    ensures NoDot(Split(Normalize(q), '/')) <==> forall seg :: seg in Split(q, '/') ==> !SpellsDot(seg)
  {
    SplitNormalize(q);
    var n := Normalize(q);
    forall i | 0 <= i < |Split(q, '/')| ensures IsDot(Split(n, '/')[i]) <==> SpellsDot(Split(q, '/')[i]) {
      NormalizesToDot(Split(q, '/')[i]);
    }
    NoDotSpellings(Split(q, '/'), Split(n, '/'));
  }

  lemma NoDotSpellings(a: seq<string>, b: seq<string>)
    requires |a| == |b|
    requires forall i :: 0 <= i < |a| ==> (IsDot(b[i]) <==> SpellsDot(a[i]))
    ensures NoDot(b) <==> forall seg :: seg in a ==> !SpellsDot(seg)
  {
    if NoDot(b) {
      forall seg | seg in a ensures !SpellsDot(seg) {
        var i :| 0 <= i < |a| && a[i] == seg;
        assert !IsDot(b[i]);
      }
    } else {
      var i :| 0 <= i < |b| && IsDot(b[i]);
      assert a[i] in a;
    }
  }

  lemma EmptyNormal(s: string)
    ensures Normalize(s) == "" <==> s == ""
    ensures Normalize("/") == "/"
  {
    if s != "" {
      Advance(s, 0);
      assert s[0..] == s;
    }
    Advance("/", 0);
    assert "/"[0..] == "/" && "/"[1..] == "";
  }
}
