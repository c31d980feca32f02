/**
 The JSON canonicaliser of the request-signing envelope: only integers have a text, and
 decoded JSON numbers must lie in the safe-integer range of ECMAScript.
 */
module RequestJcs {
  import opened Text
  import opened JsonText
  import opened CanonicalJson
  import JsonWriter

  /** A Go integer, a Go float, or a decoded JSON number that is an integer literal. */
  datatype GoNumber = Int(i: int) | Float(x: real) | Literal(i: int)

  const MAX_SAFE := 0x20_0000_0000_0000

  function FloatText(x: real): Option<string>
  {
    if x == 0.0 then Some("0")
    else if x == x.Floor as real && -MAX_SAFE as real <= x <= MAX_SAFE as real then Some(PrintInt(x.Floor))
    else None
  }

  function NumberText(n: GoNumber): Option<string>
  {
    match n
    case Int(i) => Some(PrintInt(i))
    case Float(x) => FloatText(x)
    case Literal(i) => if i < -MAX_SAFE || i > MAX_SAFE then None else Some(PrintInt(i))
  }

  function NumberValue(n: GoNumber): real
  {
    match n
    case Int(i) => i as real
    case Float(x) => x
    case Literal(i) => i as real
  }

  lemma PrintZero()
    ensures PrintInt(0) == "0"
  {
    assert PrintNat(0) == [DigitChar(0)];
  }

  /** A number has a text only if it is an integer, and then the text of that integer. */
  lemma TextIsInteger(n: GoNumber)
    requires NumberText(n).Some?
    ensures NumberValue(n) == NumberValue(n).Floor as real
    ensures NumberText(n).value == PrintInt(NumberValue(n).Floor)
  {
    PrintZero();
  }

  lemma TextsGood()
    ensures GoodTexts(NumberText)
  {
    forall n | NumberText(n).Some? ensures IsNumText(NumberText(n).value) {
      TextIsInteger(n);
      var s := NumberText(n).value;
      var i := NumberValue(n).Floor;
      if i < 0 {
        assert s[1..] == PrintNat(-i);
        assert forall k :: 1 <= k < |s| ==> s[k] == s[1..][k - 1];
      }
    }
  }

  /** Two numbers with texts have the same text exactly when they are the same number. */
  lemma TextsFaithful()
    ensures Faithful(NumberText, NumberValue)
  {
    forall m, n | NumberText(m).Some? && NumberText(n).Some?
      ensures NumberText(m) == NumberText(n) <==> NumberValue(m) == NumberValue(n)
    {
      TextIsInteger(m);
      TextIsInteger(n);
      if NumberText(m) == NumberText(n) {
        PrintIntInjective(NumberValue(m).Floor, NumberValue(n).Floor);
      }
    }
  }

  /** The signed bytes of two values agree exactly when the values are the same JSON value. */
  lemma SignedBytesExactly(v: Value<GoNumber>, w: Value<GoNumber>)
    requires Encodable(v, NumberText) && Encodable(w, NumberText)
    ensures Canonical(v, NumberText) == Canonical(w, NumberText) <==> Denoted(v, NumberValue) == Denoted(w, NumberValue)
  {
    TextsGood();
    TextsFaithful();
    CanonicalDenotes(v, w, NumberText, NumberValue);
  }

  /** Which numbers have a text: every Go integer, and of the others the integers up to 2^53 in size. */
  lemma HasTextExactly(n: GoNumber)
    ensures NumberText(n).Some? <==>
              n.Int? || (NumberValue(n) == NumberValue(n).Floor as real
                         && -9007199254740992.0 <= NumberValue(n) <= 9007199254740992.0)
  {
  }

  /** The signed bytes, or an error; read as JSON they are the value, with its members in order. */
  method JcsMarshal(v: Value<GoNumber>) returns (r: Option<string>)
    ensures r == if Encodable(v, NumberText) then Some(Canonical(v, NumberText)) else None
    ensures r.Some? ==> var t := ReadText(r.value); t.Some? && Ordered(t.value) && Stands(t.value, v, NumberText)
  {
    TextsGood();
    r := JsonWriter.Marshal(v, NumberText);
  }
}
