/**
 The textual form both JSON canonicalisers emit (RFC 8785, section 3.2): no white space, the minimal
 string escapes, numbers as given text, members in the order given; and a reader of JSON texts without
 white space (RFC 8259), which reads every printed value back, no matter what follows.
 */
module JsonText {
  import opened Text

  datatype Field = Field(key: string, value: Tree)

  /** A JSON value with number texts chosen and object members ordered. */
  datatype Tree =
    | Null
    | Bool(b: bool)
    | Num(text: string)
    | Str(s: string)
    | Arr(items: seq<Tree>)
    | Obj(fields: seq<Field>)

  function HexDigit(d: int): char
    requires 0 <= d < 16
  {
    if d < 10 then '0' + d as char else 'a' + (d - 10) as char
  }

  /** The escape of one character inside a string. */
  function Escape(c: char): string
  {
    if c == '"' then "\\\""
    else if c == '\\' then "\\\\"
    else if c as int == 8 then "\\b"
    else if c as int == 12 then "\\f"
    else if c == '\n' then "\\n"
    else if c == '\r' then "\\r"
    else if c == '\t' then "\\t"
    else if c as int < 0x20 then "\\u00" + [HexDigit(c as int / 16), HexDigit(c as int % 16)]
    else [c]
  }

  function EscapeAll(s: string): string
  {
    if s == "" then "" else Escape(s[0]) + EscapeAll(s[1..])
  }

  function Quote(s: string): string { "\"" + EscapeAll(s) + "\"" }

  function Print(t: Tree): string
    decreases t, 1
  {
    match t
    case Null => "null"
    case Bool(b) => if b then "true" else "false"
    case Num(text) => text
    case Str(s) => Quote(s)
    case Arr(items) => "[" + PrintItems(items) + "]"
    case Obj(fields) => "{" + PrintFields(fields) + "}"
  }

  function PrintItems(items: seq<Tree>): string
    decreases items, 0
  {
    if items == [] then ""
    else if |items| == 1 then Print(items[0])
    else Print(items[0]) + "," + PrintItems(items[1..])
  }

  function PrintField(f: Field): string
    decreases f, 0
  {
    Quote(f.key) + ":" + Print(f.value)
  }

  function PrintFields(fields: seq<Field>): string
    decreases fields, 0
  {
    if fields == [] then ""
    else if |fields| == 1 then PrintField(fields[0])
    else PrintField(fields[0]) + "," + PrintFields(fields[1..])
  }

  // ---- number texts ----

  predicate IsNumChar(c: char) { '0' <= c <= '9' || c == '-' || c == '+' || c == '.' || c == 'e' }

  /** A text that cannot be confused with another kind of value or run into what follows. */
  predicate IsNumText(s: string)
  {
    s != "" && s[0] != 'e' && forall i :: 0 <= i < |s| ==> IsNumChar(s[i])
  }

  /** Every number in the tree has a proper text. */
  predicate Proper(t: Tree)
  {
    match t
    case Num(text) => IsNumText(text)
    case Arr(items) => forall i :: 0 <= i < |items| ==> Proper(items[i])
    case Obj(fields) => forall i :: 0 <= i < |fields| ==> Proper(fields[i].value)
    case _ => true
  }

  // ---- reading ----

  /** What was read, and the text that follows it. */
  datatype Parsed<T> = Parsed(value: T, rest: string)

  function HexValue(c: char): Option<int> {
    if '0' <= c <= '9' then Some(c as int - '0' as int)
    else if 'a' <= c <= 'f' then Some(c as int - 'a' as int + 10)
    else if 'A' <= c <= 'F' then Some(c as int - 'A' as int + 10)
    else None
  }

  /** The character of four hex digits; surrogates, which no canonical text escapes, are not read. */
  function ReadHex(s: string): Option<char>
    requires |s| == 4
  {
    var a, b, c, d := HexValue(s[0]), HexValue(s[1]), HexValue(s[2]), HexValue(s[3]);
    if a.None? || b.None? || c.None? || d.None? then None
    else
      var n := 0x1000 * a.value + 0x100 * b.value + 0x10 * c.value + d.value;
      if 0 <= n < 0xD800 || 0xE000 <= n < 0x10000 then Some(n as char) else None
  }

  /** What a backslash and the characters after it stand for. */
  function ReadEscape(s: string): (r: Option<Parsed<char>>)
    ensures r.Some? ==> |r.value.rest| < |s|
  {
    if s == "" then None
    else if s[0] == '"' || s[0] == '\\' || s[0] == '/' then Some(Parsed(s[0], s[1..]))
    else if s[0] == 'b' then Some(Parsed('\U{0008}', s[1..]))
    else if s[0] == 'f' then Some(Parsed('\U{000C}', s[1..]))
    else if s[0] == 'n' then Some(Parsed('\U{000A}', s[1..]))
    else if s[0] == 'r' then Some(Parsed('\U{000D}', s[1..]))
    else if s[0] == 't' then Some(Parsed('\U{0009}', s[1..]))
    else if s[0] == 'u' && |s| >= 5 then
      match ReadHex(s[1..5]) case None => None case Some(c) => Some(Parsed(c, s[5..]))
    else None
  }

  function Prepend(c: char, r: Option<Parsed<string>>): Option<Parsed<string>> {
    match r case None => None case Some(Parsed(s, rest)) => Some(Parsed([c] + s, rest))
  }

  /** The rest of a string, after its opening quote. */
  function ReadString(s: string): (r: Option<Parsed<string>>)
    ensures r.Some? ==> |r.value.rest| < |s|
    decreases |s|
  {
    if s == "" then None
    else if s[0] == '"' then Some(Parsed("", s[1..]))
    else if s[0] as int < 0x20 then None
    else if s[0] != '\\' then Prepend(s[0], ReadString(s[1..]))
    else match ReadEscape(s[1..])
      case None => None
      case Some(Parsed(c, rest)) => Prepend(c, ReadString(rest))
  }

  /** The length of the longest beginning that could be a number. */
  function NumPrefix(p: string): (n: nat)
    ensures n <= |p|
  {
    if p == "" || !IsNumChar(p[0]) then 0 else 1 + NumPrefix(p[1..])
  }

  function ReadWord(word: string, t: Tree, s: string): (r: Option<Parsed<Tree>>)
    requires word != ""
    ensures r.Some? ==> |r.value.rest| < |s|
  {
    if word <= s then Some(Parsed(t, s[|word|..])) else None
  }

  /** The text goes on with this character. */
  predicate StartsWith(s: string, c: char) { s != "" && s[0] == c }

  function ReadValue(s: string): (r: Option<Parsed<Tree>>)
    ensures r.Some? ==> |r.value.rest| < |s|
    decreases |s|, 1
  {
    if StartsWith(s, 'n') then ReadWord("null", Null, s)
    else if StartsWith(s, 't') then ReadWord("true", Bool(true), s)
    else if StartsWith(s, 'f') then ReadWord("false", Bool(false), s)
    else if StartsWith(s, '"') then
      match ReadString(s[1..]) case None => None case Some(Parsed(t, rest)) => Some(Parsed(Str(t), rest))
    else if StartsWith(s, '[') then
      if StartsWith(s[1..], ']') then Some(Parsed(Arr([]), s[2..]))
      else match ReadItems(s[1..]) case None => None case Some(Parsed(items, rest)) => Some(Parsed(Arr(items), rest))
    else if StartsWith(s, '{') then
      if StartsWith(s[1..], '}') then Some(Parsed(Obj([]), s[2..]))
      else match ReadFields(s[1..]) case None => None case Some(Parsed(fields, rest)) => Some(Parsed(Obj(fields), rest))
    else
      var n := NumPrefix(s);
      if n == 0 then None else Some(Parsed(Num(s[..n]), s[n..]))
  }

  /** One or more items, up to and with the closing bracket. */
  function ReadItems(s: string): (r: Option<Parsed<seq<Tree>>>)
    ensures r.Some? ==> |r.value.rest| < |s|
    decreases |s|, 2
  {
    match ReadValue(s)
    case None => None
    case Some(Parsed(t, rest)) =>
      if StartsWith(rest, ']') then Some(Parsed([t], rest[1..]))
      else if StartsWith(rest, ',') then
        match ReadItems(rest[1..]) case None => None case Some(Parsed(items, after)) => Some(Parsed([t] + items, after))
      else None
  }

  function ReadField(s: string): (r: Option<Parsed<Field>>)
    ensures r.Some? ==> |r.value.rest| < |s|
    decreases |s|, 2
  {
    if !StartsWith(s, '"') then None
    else match ReadString(s[1..])
      case None => None
      case Some(Parsed(key, rest)) =>
        if !StartsWith(rest, ':') then None
        else match ReadValue(rest[1..]) case None => None case Some(Parsed(t, after)) => Some(Parsed(Field(key, t), after))
  }

  /** One or more members, up to and with the closing brace. */
  function ReadFields(s: string): (r: Option<Parsed<seq<Field>>>)
    ensures r.Some? ==> |r.value.rest| < |s|
    decreases |s|, 3
  {
    match ReadField(s)
    case None => None
    case Some(Parsed(f, rest)) =>
      if StartsWith(rest, '}') then Some(Parsed([f], rest[1..]))
      else if StartsWith(rest, ',') then
        match ReadFields(rest[1..]) case None => None case Some(Parsed(fields, after)) => Some(Parsed([f] + fields, after))
      else None
  }

  /** A whole text. */
  function ReadText(s: string): Option<Tree> {
    match ReadValue(s) case None => None case Some(Parsed(t, rest)) => if rest == "" then Some(t) else None
  }

  // ---- what is printed is read back ----

  /** What may follow a value: nothing, a comma, or the end of the enclosing value. */
  predicate Closes(x: string) { x == "" || x[0] == ',' || x[0] == ']' || x[0] == '}' }

  lemma Associate(a: string, b: string, c: string)
    ensures a + b + c == a + (b + c)
  {
  }

  lemma EscapedHex(c: char)
    requires |Escape(c)| > 2
    ensures Escape(c)[1] == 'u' && |Escape(c)| == 6 && ReadHex(Escape(c)[2..]) == Some(c)
  {
    var e := Escape(c);
    assert e[2..] == ['0', '0', HexDigit(c as int / 16), HexDigit(c as int % 16)];
    assert HexValue(e[4]) == Some(c as int / 16) && HexValue(e[5]) == Some(c as int % 16);
  }

  lemma EscapeTail(c: char, x: string)
    requires |Escape(c)| > 1
    ensures ReadEscape((Escape(c) + x)[1..]) == Some(Parsed(c, x))
  {
    hide ReadString;
    var e := Escape(c);
    var s := (e + x)[1..];
    assert s[0] == e[1];
    if |e| == 2 {
      assert s[1..] == x;
    } else {
      EscapedHex(c);
      hide ReadHex;
      assert s[1..5] == e[2..] && s[5..] == x;
    }
  }

  lemma EscapeRead(c: char, x: string)
    ensures ReadString(Escape(c) + x) == Prepend(c, ReadString(x))
  {
    var e := Escape(c);
    var s := e + x;
    assert s[0] == e[0];
    if |e| == 1 {
      assert s[1..] == x;
    } else {
      EscapeTail(c, x);
    }
  }

  lemma {:induction false} StringRead(s: string, x: string)
    ensures ReadString(EscapeAll(s) + ("\"" + x)) == Some(Parsed(s, x))
  {
    if s == "" {
      assert EscapeAll(s) + ("\"" + x) == "\"" + x;
    } else {
      StringRead(s[1..], x);
      Associate(Escape(s[0]), EscapeAll(s[1..]), "\"" + x);
      EscapeRead(s[0], EscapeAll(s[1..]) + ("\"" + x));
      assert s == [s[0]] + s[1..];
    }
  }

  lemma QuoteRead(s: string, x: string)
    ensures (Quote(s) + x)[0] == '"' && ReadString((Quote(s) + x)[1..]) == Some(Parsed(s, x))
  {
    hide ReadString, EscapeAll;
    StringRead(s, x);
    assert (Quote(s) + x)[1..] == EscapeAll(s) + ("\"" + x);
  }

  lemma {:induction false} NumPrefixOf(s: string, x: string)
    requires forall i :: 0 <= i < |s| ==> IsNumChar(s[i])
    requires Closes(x)
    ensures NumPrefix(s + x) == |s|
  {
    if s == "" {
      assert s + x == x;
    } else {
      assert (s + x)[1..] == s[1..] + x;
      NumPrefixOf(s[1..], x);
    }
  }

  /** No value starts like the end of an enclosing one. */
  lemma PrintHead(t: Tree)
    requires Proper(t)
    ensures Print(t) != "" && Print(t)[0] != ']' && Print(t)[0] != '}' && Print(t)[0] != ','
  {
  }

  /** What follows the first item of a list, up to and beyond the end of the list. */
  function ItemsTail(items: seq<Tree>, x: string): (r: string)
    requires items != []
    ensures r != "" && Closes(r)
  {
    if |items| == 1 then "]" + x else "," + (PrintItems(items[1..]) + ("]" + x))
  }

  lemma ItemsSplit(items: seq<Tree>, x: string)
    requires items != []
    ensures PrintItems(items) + ("]" + x) == Print(items[0]) + ItemsTail(items, x)
  {
  }

  function FieldsTail(fields: seq<Field>, x: string): (r: string)
    requires fields != []
    ensures r != "" && Closes(r)
  {
    if |fields| == 1 then "}" + x else "," + (PrintFields(fields[1..]) + ("}" + x))
  }

  lemma FieldsSplit(fields: seq<Field>, x: string)
    requires fields != []
    ensures PrintFields(fields) + ("}" + x) ==
            Quote(fields[0].key) + (":" + (Print(fields[0].value) + FieldsTail(fields, x)))
  {
    var q, v := Quote(fields[0].key), Print(fields[0].value);
    var tail := FieldsTail(fields, x);
    if |fields| > 1 {
      var r := PrintFields(fields[1..]);
      Associate(q + ":" + v, ",", r);
      Associate(q + ":" + v, "," + r, "}" + x);
      Associate(",", r, "}" + x);
    }
    assert PrintFields(fields) + ("}" + x) == q + ":" + v + tail;
    Associate(q + ":", v, tail);
    Associate(q, ":", v + tail);
  }

  lemma WordRead(t: Tree, x: string)
    requires t.Null? || t.Bool?
    ensures ReadValue(Print(t) + x) == Some(Parsed(t, x))
  {
    var s := Print(t) + x;
    assert s[|Print(t)|..] == x;
    assert Print(t) <= s;
    assert s[0] == Print(t)[0];
  }

  lemma NumRead(text: string, x: string)
    requires IsNumText(text) && Closes(x)
    ensures ReadValue(Print(Num(text)) + x) == Some(Parsed(Num(text), x))
  {
    var s := text + x;
    NumPrefixOf(text, x);
    assert s[0] == text[0] && s[|text|..] == x && s[..|text|] == text;
  }

  lemma OpenedRead(body: string)
    ensures ReadValue("\"" + body) == match ReadString(body) case None => None case Some(Parsed(t, rest)) => Some(Parsed(Str(t), rest))
    ensures StartsWith(body, ']') ==> ReadValue("[" + body) == Some(Parsed(Arr([]), body[1..]))
    ensures !StartsWith(body, ']') ==>
              ReadValue("[" + body) == match ReadItems(body) case None => None case Some(Parsed(items, rest)) => Some(Parsed(Arr(items), rest))
    ensures StartsWith(body, '}') ==> ReadValue("{" + body) == Some(Parsed(Obj([]), body[1..]))
    ensures !StartsWith(body, '}') ==>
              ReadValue("{" + body) == match ReadFields(body) case None => None case Some(Parsed(fields, rest)) => Some(Parsed(Obj(fields), rest))
  {
    hide ReadString, ReadItems, ReadFields, NumPrefix;
    assert ("\"" + body)[1..] == ("[" + body)[1..] == ("{" + body)[1..] == body;
    assert StartsWith(body, ']') ==> ("[" + body)[2..] == body[1..];
    assert StartsWith(body, '}') ==> ("{" + body)[2..] == body[1..];
  }

  lemma ArrRead(items: seq<Tree>, x: string)
    requires items != [] ==> Proper(items[0]) && ReadItems(PrintItems(items) + ("]" + x)) == Some(Parsed(items, x))
    ensures ReadValue(Print(Arr(items)) + x) == Some(Parsed(Arr(items), x))
  {
    hide ReadValue, ReadItems;
    var body := PrintItems(items) + ("]" + x);
    assert Print(Arr(items)) + x == "[" + body;
    OpenedRead(body);
    if items == [] {
      assert body == "]" + x && body[1..] == x;
    } else {
      ItemsSplit(items, x);
      PrintHead(items[0]);
      assert body[0] == Print(items[0])[0];
    }
  }

  lemma FieldsHead(fields: seq<Field>)
    requires fields != []
    ensures PrintFields(fields) != "" && PrintFields(fields)[0] == '"'
  {
    hide EscapeAll, Print;
  }

  lemma ObjRead(fields: seq<Field>, x: string)
    requires fields != [] ==> ReadFields(PrintFields(fields) + ("}" + x)) == Some(Parsed(fields, x))
    ensures ReadValue(Print(Obj(fields)) + x) == Some(Parsed(Obj(fields), x))
  {
    hide ReadValue, ReadFields;
    var f := PrintFields(fields);
    assert Print(Obj(fields)) == "{" + f + "}";
    if fields != [] {
      FieldsHead(fields);
    }
    hide Print, PrintFields;
    assert "{" + f + "}" + x == "{" + (f + ("}" + x));
    OpenedRead(f + ("}" + x));
    if fields == [] {
      assert f + ("}" + x) == "}" + x;
      assert ("}" + x)[1..] == x;
    }
  }

  lemma StrRead(q: string, x: string)
    ensures ReadValue(Print(Str(q)) + x) == Some(Parsed(Str(q), x))
  {
    hide ReadValue, ReadString, EscapeAll;
    var body := EscapeAll(q) + ("\"" + x);
    assert Print(Str(q)) + x == "\"" + body;
    StringRead(q, x);
    OpenedRead(body);
  }

  /** A printed value is read back, whatever follows it. */
  lemma {:induction false} PrintRead(t: Tree, x: string)
    requires Proper(t) && Closes(x)
    ensures ReadValue(Print(t) + x) == Some(Parsed(t, x))
    decreases t, 1
  {
    hide ReadValue, Print;
    match t
    case Num(text) => NumRead(text, x);
    case Str(q) => StrRead(q, x);
    case Arr(items) =>
      if items != [] {
        ItemsRead(items, x);
      }
      ArrRead(items, x);
    case Obj(fields) =>
      if fields != [] {
        FieldsRead(fields, x);
      }
      ObjRead(fields, x);
    case _ => WordRead(t, x);
  }

  lemma {:induction false} ItemsRead(items: seq<Tree>, x: string)
    requires items != [] && forall i :: 0 <= i < |items| ==> Proper(items[i])
    ensures ReadItems(PrintItems(items) + ("]" + x)) == Some(Parsed(items, x))
    decreases items, 0
  {
    hide Print, PrintItems, PrintFields, ReadValue;
    ItemsSplit(items, x);
    var tail := ItemsTail(items, x);
    PrintRead(items[0], tail);
    if |items| == 1 {
      assert tail[1..] == x && items == [items[0]];
    } else {
      ItemsRead(items[1..], x);
      assert tail[1..] == PrintItems(items[1..]) + ("]" + x);
      assert items == [items[0]] + items[1..];
    }
  }

  lemma {:induction false} FieldsRead(fields: seq<Field>, x: string)
    requires fields != [] && forall i :: 0 <= i < |fields| ==> Proper(fields[i].value)
    ensures ReadFields(PrintFields(fields) + ("}" + x)) == Some(Parsed(fields, x))
    decreases fields, 0
  {
    hide Print, PrintItems, PrintFields, ReadValue, ReadField;
    FieldsSplit(fields, x);
    var tail := FieldsTail(fields, x);
    PrintRead(fields[0].value, tail);
    FieldRead(fields[0], tail);
    if |fields| == 1 {
      assert tail[1..] == x && fields == [fields[0]];
    } else {
      FieldsRead(fields[1..], x);
      assert tail[1..] == PrintFields(fields[1..]) + ("}" + x);
      assert fields == [fields[0]] + fields[1..];
    }
  }

  lemma FieldRead(f: Field, tail: string)
    requires ReadValue(Print(f.value) + tail) == Some(Parsed(f.value, tail))
    ensures ReadField(Quote(f.key) + (":" + (Print(f.value) + tail))) == Some(Parsed(f, tail))
  {
    hide Print, ReadValue, Quote;
    var rest := ":" + (Print(f.value) + tail);
    QuoteRead(f.key, rest);
    assert rest[1..] == Print(f.value) + tail;
  }

  /** Escapes are as short as they can be: none, two characters, or six with lower-case digits. */
  lemma EscapeExactly(c: char)
    ensures |Escape(c)| == 1 <==> c as int >= 0x20 && c != '"' && c != '\\'
    ensures |Escape(c)| == 2 <==> c == '"' || c == '\\' || c as int in {8, 9, 10, 12, 13}
    ensures |Escape(c)| == 6 <==> c as int < 0x20 && c as int !in {8, 9, 10, 12, 13}
    ensures |Escape(c)| > 1 ==> forall i :: 0 <= i < |Escape(c)| ==> !('A' <= Escape(c)[i] <= 'Z')
  {
  }

  /** Reading undoes printing. */
  lemma ReadPrinted(t: Tree)
    requires Proper(t)
    ensures ReadText(Print(t)) == Some(t)
  {
    assert Print(t) + "" == Print(t);
    PrintRead(t, "");
  }

  /** Different values print differently. */
  lemma PrintInjective(t: Tree, u: Tree)
    requires Proper(t) && Proper(u)
    ensures Print(t) == Print(u) <==> t == u
  {
    ReadPrinted(t);
    ReadPrinted(u);
  }
}
