/**
 Number layout of ECMAScript's Number.prototype.toString, which RFC 8785 section 3.2.2.3 prescribes:
 from the shortest scientific form of a double to its canonical text. The meaning of a
 decimal text is given by an independent reader, so input and output are compared as numbers.
 */
module Es6Number {
  import opened Text
  import opened JsonText

  // ---- what a decimal text denotes ----

  datatype Decimal = Decimal(neg: bool, whole: string, frac: string, exp: int)

  /** A sign, if any, and what follows it. */
  function TakeSign(s: string): (bool, string)
  {
    if s != "" && s[0] == '-' then (true, s[1..]) else (false, s)
  }

  /** An optional minus, digits, optionally a point and digits, optionally an exponent. */
  function Read(s: string): (r: Option<Decimal>)
    ensures r.Some? ==> AllDigits(r.value.whole) && AllDigits(r.value.frac)
  {
    var (front, expText, hasExp) := Cut(s, 'e');
    var exp := if hasExp then Atoi(expText) else Some(0);
    var (neg, mantissa) := TakeSign(front);
    var (whole, frac, _) := Cut(mantissa, '.');
    if exp.None? || whole == "" || !AllDigits(whole) || !AllDigits(frac) then None
    else Some(Decimal(neg, whole, frac, exp.value))
  }

  /** `m` times 10 to the power `e`. */
  function Shift(m: real, e: int): (r: real)
    ensures m > 0.0 ==> r > 0.0
    decreases if e < 0 then -e else e
  {
    if e == 0 then m
    else if e > 0 then 10.0 * Shift(m, e - 1)
    else Shift(m, e + 1) / 10.0
  }

  function NatShift(m: nat, n: nat): nat
  {
    if n == 0 then m else 10 * NatShift(m, n - 1)
  }

  /** The number a decimal stands for. */
  function Value(d: Decimal): real
    requires AllDigits(d.whole) && AllDigits(d.frac)
  {
    Signed(d.neg, Shift(NatValue(d.whole + d.frac) as real, d.exp - |d.frac|))
  }

  function Signed(neg: bool, m: real): real { if neg then -m else m }

  lemma {:induction false} ShiftTen(m: real, e: int)
    ensures Shift(10.0 * m, e) == 10.0 * Shift(m, e) == Shift(m, e + 1)
    decreases if e < 0 then -e else e
  {
    if e > 0 {
      ShiftTen(m, e - 1);
    } else if e < 0 {
      ShiftTen(m, e + 1);
    }
  }

  /** Zeros appended to the digits are powers of ten. */
  lemma {:induction false} ShiftNat(m: nat, n: nat, e: int)
    ensures Shift(NatShift(m, n) as real, e) == Shift(m as real, e + n)
  {
    if n > 0 {
      ShiftNat(m, n - 1, e);
      ShiftTen(NatShift(m, n - 1) as real, e);
      ShiftTen(m as real, e + n - 1);
    }
  }

  lemma {:induction false} ShiftGrows(m: real, e: int, n: nat)
    requires m > 0.0
    ensures Shift(m, e + n) >= Shift(m, e)
    ensures Shift(m, e + n) == Shift(m, e) <==> n == 0
  {
    if n > 0 {
      ShiftGrows(m, e, n - 1);
      ShiftTen(m, e + n - 1);
    }
  }

  lemma {:induction false} NatPrefixConcat(a: string, b: string, n: nat)
    requires AllDigits(a) && AllDigits(b) && n <= |b|
    ensures AllDigits(a + b)
    ensures NatPrefix(a + b, |a| + n) == NatShift(NatValue(a), n) + NatPrefix(b, n)
  {
    if n == 0 {
      assert (a + b)[..|a|] == a[..|a|];
      NatPrefixOf(a + b, a, |a|);
    } else {
      NatPrefixConcat(a, b, n - 1);
      assert (a + b)[|a| + n - 1] == b[n - 1];
    }
  }

  lemma NatValueConcat(a: string, b: string)
    requires AllDigits(a) && AllDigits(b)
    ensures AllDigits(a + b)
    ensures NatValue(a + b) == NatShift(NatValue(a), |b|) + NatValue(b)
  {
    NatPrefixConcat(a, b, |b|);
  }

  function Zeros(n: nat): (s: string)
    ensures |s| == n && AllDigits(s)
    ensures forall i :: 0 <= i < n ==> s[i] == '0'
  {
    seq(n, _ => '0')
  }

  lemma {:induction false} NatPrefixZeros(s: string, n: nat)
    requires AllDigits(s) && n <= |s| && forall i :: 0 <= i < n ==> s[i] == '0'
    ensures NatPrefix(s, n) == 0
  {
    if n > 0 {
      NatPrefixZeros(s, n - 1);
    }
  }

  lemma NatValueZeros(n: nat)
    ensures NatValue(Zeros(n)) == 0
  {
    NatPrefixZeros(Zeros(n), n);
  }

  // ---- the layout ----

  /** strings.TrimRight for '0'. */
  function TrimZeros(s: string): (t: string)
    ensures t <= s
    ensures t != "" ==> t[|t| - 1] != '0'
    ensures forall i :: |t| <= i < |s| ==> s[i] == '0'
  {
    if s != "" && s[|s| - 1] == '0' then TrimZeros(s[..|s| - 1]) else s
  }

  /** Fixed notation of `digits`, the first of which stands for 10 to the power `decExp`. */
  function Fixed(digits: string, decExp: int): string
  {
    if decExp < 0 then "0." + Zeros(-decExp - 1) + digits
    else if decExp + 1 >= |digits| then digits + Zeros(decExp + 1 - |digits|)
    else digits[..decExp + 1] + "." + digits[decExp + 1..]
  }

  /** A digit, and a point and more digits if there are any. */
  function PointAfterFirst(lead: char, frac: string): string
  {
    if frac == "" then [lead] else [lead] + "." + frac
  }

  /** An exponent with its sign. */
  function ExponentText(decExp: int): string { if decExp >= 0 then "+" + PrintInt(decExp) else PrintInt(decExp) }

  function Exponential(digits: string, decExp: int): string
    requires digits != ""
  {
    PointAfterFirst(digits[0], digits[1..]) + "e" + ExponentText(decExp)
  }

  function Arrange(digits: string, decExp: int): string
    requires digits != ""
  {
    if -6 <= decExp < 21 then Fixed(digits, decExp) else Exponential(digits, decExp)
  }

  method FixedDecimal(digits: string, decExp: int) returns (out: string)
    ensures out == Fixed(digits, decExp)
    ensures decExp < 0 ==> |out| == 1 - decExp + |digits| && out[..2] == "0." && out[1 - decExp..] == digits
                           && forall i :: 2 <= i < 1 - decExp ==> out[i] == '0'
    ensures decExp + 1 >= |digits| && decExp >= 0 ==>
              |out| == decExp + 1 && out[..|digits|] == digits && forall i :: |digits| <= i < |out| ==> out[i] == '0'
    ensures 0 <= decExp && decExp + 1 < |digits| ==> out == digits[..decExp + 1] + "." + digits[decExp + 1..]
  {
    if decExp < 0 {
      out := "0.";
      for i := 0 to -decExp - 1
        invariant out == "0." + Zeros(i)
      {
        assert Zeros(i + 1) == Zeros(i) + "0";
        out := out + "0";
      }
      out := out + digits;
      return;
    }
    if decExp + 1 >= |digits| {
      out := digits;
      for i := 0 to decExp + 1 - |digits|
        invariant out == digits + Zeros(i)
      {
        assert Zeros(i + 1) == Zeros(i) + "0";
        out := out + "0";
      }
      return;
    }
    out := digits[..decExp + 1] + "." + digits[decExp + 1..];
  }

  datatype Parts = Parts(neg: bool, digits: string, decExp: int)

  /** The sign, the significant digits and the exponent of the first of them. */
  function Dissect(s: string): (p: Option<Parts>)
    ensures p.Some? ==> p.value.digits != ""
  {
    var (front, expText, hasExp) := Cut(s, 'e');
    var exp := Atoi(expText);
    if !hasExp || exp.None? then None
    else
      var (neg, mantissa) := TakeSign(front);
      var (intPart, fracPart, _) := Cut(mantissa, '.');
      var trimmed := TrimZeros(intPart + fracPart);
      var digits := if trimmed == "" then "0" else trimmed;
      Some(Parts(neg, digits, exp.value - |fracPart| + |digits| - 1))
  }

  /** The canonical text for the output of strconv.FormatFloat in 'e' format. */
  function FormatES6(s: string): string
  {
    match Dissect(s)
    case None => s
    case Some(p) => WithSign(p.neg, Arrange(p.digits, p.decExp))
  }

  function WithSign(neg: bool, body: string): string { if neg then "-" + body else body }

  // ---- the scientific form ----

  /** A nonzero number as strconv.FormatFloat(f, 'e', -1, 64) yields it: a nonzero leading digit,
      a fraction, and an exponent given by its text. */
  datatype Sci = Sci(neg: bool, lead: char, frac: string, exp: int, expText: string)

  predicate ValidSci(x: Sci)
  {
    '1' <= x.lead <= '9' && AllDigits(x.frac) && Atoi(x.expText) == Some(x.exp)
  }

  function Mantissa(x: Sci): string { PointAfterFirst(x.lead, x.frac) }

  function Show(x: Sci): string { WithSign(x.neg, Mantissa(x)) + "e" + x.expText }

  function Digits(x: Sci): string { [x.lead] + x.frac }

  lemma TakeSignBack(neg: bool, body: string)
    requires body != "" && body[0] != '-'
    ensures TakeSign(WithSign(neg, body)) == (neg, body)
  {
  }

  lemma DigitsFree(s: string, c: char)
    requires AllDigits(s) && !IsDigit(c)
    ensures c !in s
  {
  }

  lemma SignFree(neg: bool, body: string, c: char)
    requires c !in body && c != '-'
    ensures c !in WithSign(neg, body)
  {
  }

  lemma CutMantissa(lead: char, frac: string)
    requires IsDigit(lead) && AllDigits(frac)
    ensures 'e' !in PointAfterFirst(lead, frac)
    ensures Cut(PointAfterFirst(lead, frac), '.').0 == [lead] && Cut(PointAfterFirst(lead, frac), '.').1 == frac
  {
    DigitsFree(frac, 'e');
    if frac == "" {
      CutNone([lead], '.');
    } else {
      CutAt([lead], frac, '.');
    }
  }

  /** The three cuts that take a scientific form apart. */
  lemma CutSci(x: Sci)
    requires ValidSci(x)
    ensures AllDigits(Digits(x))
    ensures Cut(Show(x), 'e') == (WithSign(x.neg, Mantissa(x)), x.expText, true)
    ensures TakeSign(WithSign(x.neg, Mantissa(x))) == (x.neg, Mantissa(x))
    ensures Cut(Mantissa(x), '.').0 == [x.lead] && Cut(Mantissa(x), '.').1 == x.frac
  {
    CutMantissa(x.lead, x.frac);
    SignFree(x.neg, Mantissa(x), 'e');
    CutAt(WithSign(x.neg, Mantissa(x)), x.expText, 'e');
    TakeSignBack(x.neg, Mantissa(x));
  }

  lemma DissectCuts(s: string, front: string, expText: string, mantissa: string, p: Parts, whole: string, frac: string)
    requires Cut(s, 'e') == (front, expText, true)
    requires TakeSign(front) == (p.neg, mantissa)
    requires Cut(mantissa, '.').0 == whole && Cut(mantissa, '.').1 == frac
    requires p.digits == TrimZeros(whole + frac) && p.digits != ""
    requires Atoi(expText) == Some(p.decExp + |frac| - |p.digits| + 1)
    ensures Dissect(s) == Some(p)
  {
    hide Cut, TakeSign, Atoi, TrimZeros;
  }

  lemma DissectSci(x: Sci, t: string)
    requires ValidSci(x) && t == TrimZeros([x.lead] + x.frac) && t != ""
    ensures Dissect(Show(x)) == Some(Parts(x.neg, t, x.exp - |x.frac| + |t| - 1))
  {
    hide Cut, TakeSign, Atoi, TrimZeros, Show, WithSign, AllDigits, Dissect, Mantissa;
    CutSci(x);
    DissectCuts(Show(x), WithSign(x.neg, Mantissa(x)), x.expText, Mantissa(x),
                Parts(x.neg, t, x.exp - |x.frac| + |t| - 1), [x.lead], x.frac);
  }

  // ---- the layout keeps the value ----

  /** The value of a digit string whose first digit stands for 10 to the power `decExp`. */
  function Scaled(digits: string, decExp: int): real
    requires digits != "" && AllDigits(digits)
  {
    Shift(NatValue(digits) as real, decExp - |digits| + 1)
  }

  /** The number a text denotes, as read back. */
  function Denoted(s: string): real
    requires Read(s).Some?
  {
    Value(Read(s).value)
  }

  /** A text is fixed or exponential notation for a number. */
  ghost predicate Reads(s: string, exponential: bool, value: real)
  {
    ('e' in s <==> exponential) && Read(s).Some? && Denoted(s) == value
  }

  ghost predicate Denotes(neg: bool, body: string, exponential: bool, magnitude: real)
  {
    Reads(WithSign(neg, body), exponential, Signed(neg, magnitude))
  }

  /** Reading a text without an exponent, given how its body is cut at the point. */
  lemma ReadFixed(neg: bool, body: string, whole: string, frac: string)
    requires 'e' !in body && body != "" && body[0] != '-'
    requires Cut(body, '.').0 == whole && Cut(body, '.').1 == frac
    requires whole != "" && AllDigits(whole) && AllDigits(frac)
    ensures 'e' !in WithSign(neg, body)
    ensures Read(WithSign(neg, body)) == Some(Decimal(neg, whole, frac, 0))
  {
    SignFree(neg, body, 'e');
    CutNone(WithSign(neg, body), 'e');
    TakeSignBack(neg, body);
  }

  lemma ReadWhole(neg: bool, whole: string)
    requires whole != "" && AllDigits(whole)
    ensures 'e' !in WithSign(neg, whole)
    ensures Read(WithSign(neg, whole)) == Some(Decimal(neg, whole, "", 0))
  {
    DigitsFree(whole, '.');
    DigitsFree(whole, 'e');
    CutNone(whole, '.');
    ReadFixed(neg, whole, whole, "");
  }

  lemma ReadPoint(neg: bool, whole: string, frac: string)
    requires whole != "" && AllDigits(whole) && AllDigits(frac)
    ensures 'e' !in WithSign(neg, whole + "." + frac)
    ensures Read(WithSign(neg, whole + "." + frac)) == Some(Decimal(neg, whole, frac, 0))
  {
    DigitsFree(whole, '.');
    DigitsFree(whole, 'e');
    DigitsFree(frac, 'e');
    CutAt(whole, frac, '.');
    ReadFixed(neg, whole + "." + frac, whole, frac);
  }

  lemma SmallValue(neg: bool, digits: string, decExp: int)
    requires digits != "" && AllDigits(digits) && decExp < 0
    ensures Denotes(neg, "0." + Zeros(-decExp - 1) + digits, false, Scaled(digits, decExp))
  {
    var z := Zeros(-decExp - 1);
    assert "0." + z + digits == "0" + "." + (z + digits);
    ReadPoint(neg, "0", z + digits);
    LeadingZeros(z, digits);
  }

  lemma LargeValue(neg: bool, digits: string, k: nat)
    requires digits != "" && AllDigits(digits)
    ensures Denotes(neg, digits + Zeros(k), false, Shift(NatValue(digits) as real, k))
  {
    ReadWhole(neg, digits + Zeros(k));
    TrailingZeros(digits, k);
    assert digits + Zeros(k) + "" == digits + Zeros(k);
    ShiftNat(NatValue(digits), k, 0);
  }

  lemma MiddleValue(neg: bool, digits: string, n: nat)
    requires AllDigits(digits) && 0 < n < |digits|
    ensures Denotes(neg, digits[..n] + "." + digits[n..], false, Scaled(digits, n - 1))
  {
    ReadPoint(neg, digits[..n], digits[n..]);
    assert digits[..n] + digits[n..] == digits;
  }

  lemma FixedValue(neg: bool, digits: string, decExp: int)
    requires digits != "" && AllDigits(digits)
    ensures Denotes(neg, Fixed(digits, decExp), false, Scaled(digits, decExp))
  {
    if decExp < 0 {
      SmallValue(neg, digits, decExp);
    } else if decExp + 1 >= |digits| {
      LargeValue(neg, digits, decExp + 1 - |digits|);
    } else {
      MiddleValue(neg, digits, decExp + 1);
    }
  }

  lemma LeadingZeros(z: string, digits: string)
    requires AllDigits(digits) && z == Zeros(|z|)
    ensures AllDigits("0" + (z + digits)) && NatValue("0" + (z + digits)) == NatValue(digits)
  {
    NatValueZeros(|z| + 1);
    assert "0" + (z + digits) == Zeros(|z| + 1) + digits;
    NatValueConcat(Zeros(|z| + 1), digits);
    NatShiftZero(|digits|);
  }

  lemma {:induction false} NatShiftZero(n: nat)
    ensures NatShift(0, n) == 0
  {
    if n > 0 {
      NatShiftZero(n - 1);
    }
  }

  lemma TrailingZeros(digits: string, k: nat)
    requires AllDigits(digits)
    ensures AllDigits(digits + Zeros(k)) && NatValue(digits + Zeros(k)) == NatShift(NatValue(digits), k)
  {
    NatValueConcat(digits, Zeros(k));
    NatValueZeros(k);
  }

  lemma AtoiSigned(n: int)
    requires -MAX_INT64 - 1 <= n <= MAX_INT64
    ensures Atoi(ExponentText(n)) == Some(n)
  {
    AtoiPrint(n);
    if n >= 0 {
      assert ("+" + PrintInt(n))[1..] == PrintInt(n);
    }
  }

  lemma ReadSci(x: Sci)
    requires ValidSci(x)
    ensures 'e' in Show(x)
    ensures Read(Show(x)) == Some(Decimal(x.neg, [x.lead], x.frac, x.exp))
  {
    CutSci(x);
    assert Show(x)[|WithSign(x.neg, Mantissa(x))|] == 'e';
  }

  lemma SignFirst(neg: bool, a: string, b: string)
    ensures WithSign(neg, a + "e" + b) == WithSign(neg, a) + "e" + b
  {
    if neg {
      Associate("-", a, "e");
      Associate("-", a + "e", b);
    }
  }

  lemma DigitsAll(x: Sci)
    requires ValidSci(x)
    ensures AllDigits(Digits(x)) && |Digits(x)| == 1 + |x.frac|
    ensures Digits(x)[0] == x.lead != '0'
  {
  }

  /** The magnitude of a scientific form: its digits as an integer, moved by its exponent. */
  function Magnitude(x: Sci): real
    requires AllDigits(Digits(x))
  {
    Shift(NatValue(Digits(x)) as real, x.exp - |x.frac|)
  }

  lemma SciValue(x: Sci)
    requires ValidSci(x)
    ensures AllDigits(Digits(x)) && Reads(Show(x), true, Signed(x.neg, Magnitude(x)))
  {
    hide Read, Show, AllDigits, NatValue, ValidSci;
    DigitsAll(x);
    ReadSci(x);
  }

  lemma ExponentialValue(neg: bool, digits: string, decExp: int)
    requires digits != "" && AllDigits(digits) && digits[0] != '0'
    requires -MAX_INT64 - 1 <= decExp <= MAX_INT64
    ensures Denotes(neg, Exponential(digits, decExp), true, Scaled(digits, decExp))
  {
    var e := ExponentText(decExp);
    AtoiSigned(decExp);
    ExponentialText(neg, digits, decExp, e);
  }

  lemma ExponentialText(neg: bool, digits: string, decExp: int, e: string)
    requires digits != "" && AllDigits(digits) && digits[0] != '0' && Atoi(e) == Some(decExp)
    ensures Denotes(neg, PointAfterFirst(digits[0], digits[1..]) + "e" + e, true, Scaled(digits, decExp))
  {
    assert [digits[0]] + digits[1..] == digits;
    SciDenotes(Sci(neg, digits[0], digits[1..], decExp, e));
  }

  lemma SciDenotes(x: Sci)
    requires ValidSci(x)
    ensures AllDigits(Digits(x))
    ensures Denotes(x.neg, Mantissa(x) + "e" + x.expText, true, Scaled(Digits(x), x.exp))
  {
    hide Read, AllDigits, NatValue, WithSign, ValidSci, Denoted, Mantissa;
    SciValue(x);
    DigitsAll(x);
    SignFirst(x.neg, Mantissa(x), x.expText);
  }

  /** The digits a trim removes are all zeros. */
  lemma TrimValue(d: string)
    requires AllDigits(d) && d != "" && d[0] != '0'
    ensures AllDigits(TrimZeros(d)) && 0 < |TrimZeros(d)| <= |d| && TrimZeros(d)[0] == d[0]
    ensures NatValue(d) == NatShift(NatValue(TrimZeros(d)), |d| - |TrimZeros(d)|)
    ensures |TrimZeros(d)| == |d| <==> d[|d| - 1] != '0'
  {
    var t := TrimZeros(d);
    assert d == t + Zeros(|d| - |t|);
    TrailingZeros(t, |d| - |t|);
  }

  /** The shortest form of a double never ends its fraction in a zero. */
  predicate NoTrailingZero(x: Sci) { x.frac == "" || x.frac[|x.frac| - 1] != '0' }

  lemma LeadPositive(t: string)
    requires t != "" && AllDigits(t) && t[0] != '0'
    ensures NatValue(t) > 0
  {
    PrefixPositive(t, |t|);
  }

  lemma {:induction false} PrefixPositive(t: string, n: nat)
    requires 0 < n <= |t| && AllDigits(t) && t[0] != '0'
    ensures NatPrefix(t, n) > 0
  {
    if n > 1 {
      PrefixPositive(t, n - 1);
    }
  }

  /** Exponents of doubles, with room to spare. */
  predicate InRange(x: Sci)
    requires ValidSci(x)
  {
    |x.frac| < 0x1_0000_0000 && -0x1_0000_0000 < x.exp < 0x1_0000_0000
  }

  lemma ArrangeValue(neg: bool, digits: string, decExp: int)
    requires digits != "" && AllDigits(digits) && digits[0] != '0'
    requires -MAX_INT64 - 1 <= decExp <= MAX_INT64
    ensures Denotes(neg, Arrange(digits, decExp), decExp < -6 || decExp > 20, Scaled(digits, decExp))
  {
    if -6 <= decExp < 21 {
      FixedValue(neg, digits, decExp);
    } else {
      ExponentialValue(neg, digits, decExp);
    }
  }

  /** What the canonical text of a scientific form denotes, and in which notation. */
  lemma FormatValue(x: Sci, t: string, e: int)
    requires ValidSci(x) && InRange(x)
    requires t == TrimZeros(Digits(x)) && e == x.exp - |x.frac| + |t| - 1
    ensures t != "" && AllDigits(t)
    ensures Reads(FormatES6(Show(x)), e < -6 || e > 20, Signed(x.neg, Scaled(t, e)))
  {
    hide Read, Show, Dissect, Arrange, AllDigits, TrimZeros, NatValue;
    DigitsAll(x);
    TrimValue(Digits(x));
    DissectSci(x, t);
    ArrangeValue(x.neg, t, e);
  }

  /** Exponential notation: one digit, the others after a point if there are any, and a signed exponent. */
  lemma ExponentialExactly(digits: string, decExp: int)
    requires digits != "" && (decExp < -6 || decExp > 20)
    ensures |digits| == 1 && decExp > 0 ==> Arrange(digits, decExp) == digits + "e+" + PrintNat(decExp)
    ensures |digits| == 1 && decExp < 0 ==> Arrange(digits, decExp) == digits + "e-" + PrintNat(-decExp)
    ensures |digits| > 1 && decExp > 0 ==>
              Arrange(digits, decExp) == digits[..1] + "." + digits[1..] + "e+" + PrintNat(decExp)
    ensures |digits| > 1 && decExp < 0 ==>
              Arrange(digits, decExp) == digits[..1] + "." + digits[1..] + "e-" + PrintNat(-decExp)
  {
    var m := PointAfterFirst(digits[0], digits[1..]);
    assert digits[..1] == [digits[0]] && (|digits| == 1 ==> digits == [digits[0]]);
    if decExp > 0 {
      assert m + "e" + ("+" + PrintNat(decExp)) == m + "e+" + PrintNat(decExp);
    } else {
      assert m + "e" + ("-" + PrintNat(-decExp)) == m + "e-" + PrintNat(-decExp);
    }
  }

  /** The reader agrees with decimal printing. */
  lemma ReadsIntegers(n: int)
    ensures Read(PrintInt(n)).Some? && Denoted(PrintInt(n)) == n as real
  {
    var digits := PrintNat(if n < 0 then -n else n);
    ReadWhole(n < 0, digits);
    assert digits + "" == digits;
  }

  lemma ScaledTrim(d: string, t: string, e: int)
    requires AllDigits(d) && AllDigits(t) && 0 < |t| <= |d| && t[0] != '0'
    requires NatValue(d) == NatShift(NatValue(t), |d| - |t|)
    ensures Shift(NatValue(d) as real, e) >= Shift(NatValue(t) as real, e)
    ensures Shift(NatValue(d) as real, e) == Shift(NatValue(t) as real, e) <==> |t| == |d|
  {
    ShiftNat(NatValue(t), |d| - |t|, e);
    LeadPositive(t);
    ShiftGrows(NatValue(t) as real, e, |d| - |t|);
  }

  /** The canonical text denotes the number exactly when the fraction does not end in a zero;
      then it is in fixed notation exactly for leading exponents in [-6, 20]. */
  lemma FormatKeepsValueExactly(x: Sci)
    requires ValidSci(x) && InRange(x)
    ensures Read(Show(x)).Some? && Read(FormatES6(Show(x))).Some?
    ensures Denoted(FormatES6(Show(x))) == Denoted(Show(x)) <==> NoTrailingZero(x)
    ensures NoTrailingZero(x) ==> ('e' !in FormatES6(Show(x)) <==> -6 <= x.exp <= 20)
  {
    hide FormatES6, Show, Read, Value, AllDigits, TrimZeros, NatValue, InRange, ValidSci;
    DigitsAll(x);
    var d := Digits(x);
    var t := TrimZeros(d);
    SciValue(x);
    FormatValue(x, t, x.exp - |x.frac| + |t| - 1);
    TrimValue(d);
    ScaledTrim(d, t, x.exp - |x.frac|);
    assert d[|d| - 1] != '0' <==> NoTrailingZero(x);
  }
}
