/**
 The recursive writer of the JSON canonicalisers: it appends to a shared buffer, visits an
 object's members in sorted key order, and gives up at the first number that has no text.
 */
module JsonWriter {
  import opened Text
  import opened JsonText
  import opened KeyOrder
  import opened CanonicalJson

  class Buffer {
    var bytes: string

    constructor ()
      ensures bytes == ""
    {
      bytes := "";
    }

    method WriteString(s: string)
      modifies this
      ensures bytes == old(bytes) + s
    {
      bytes := bytes + s;
    }

    method WriteJsonString(s: string)
      modifies this
      ensures bytes == old(bytes) + Quote(s)
    {
      WriteString("\"");
      ghost var start := bytes;
      assert s[0..] == s;
      for i := 0 to |s|
        invariant bytes + EscapeAll(s[i..]) == start + EscapeAll(s)
      {
        assert s[i..][1..] == s[i + 1..];
        Associate(bytes, Escape(s[i]), EscapeAll(s[i + 1..]));
        WriteString(Escape(s[i]));
      }
      assert s[|s|..] == "" && bytes + "" == bytes;
      WriteString("\"");
      Associate(old(bytes), "\"", EscapeAll(s));
      Associate(old(bytes), "\"" + EscapeAll(s), "\"");
    }
  }

  /** The keys of an object, in whatever order its map yields them. */
  method CollectKeys<N>(members: map<string, Value<N>>) returns (keys: seq<string>)
    ensures Elements(keys) == members.Keys
    ensures forall i, j :: 0 <= i < j < |keys| ==> keys[i] != keys[j]
  {
    keys := [];
    var rest := members.Keys;
    while rest != {}
      invariant rest <= members.Keys
      invariant Elements(keys) == members.Keys - rest
      invariant forall i, j :: 0 <= i < j < |keys| ==> keys[i] != keys[j]
      decreases |rest|
    {
      var k :| k in rest;
      assert k !in Elements(keys);
      assert Elements(keys + [k]) == Elements(keys) + {k};
      keys := keys + [k];
      rest := rest - {k};
    }
  }

  // ---- what the two loops still have to write ----

  /** What is left of a list after `i` of its items: a comma belongs to what follows it. */
  function ItemsLeft(trees: seq<Tree>, i: nat): string
    requires i <= |trees|
  {
    if i == 0 then PrintItems(trees)
    else if i == |trees| then ""
    else "," + PrintItems(trees[i..])
  }

  lemma ItemWritten(trees: seq<Tree>, i: nat, before: string)
    requires i < |trees|
    ensures before + ItemsLeft(trees, i) ==
            (if i > 0 then before + "," else before) + Print(trees[i]) + ItemsLeft(trees, i + 1)
  {
    var r := trees[i..];
    var p, rest := Print(trees[i]), ItemsLeft(trees, i + 1);
    assert r[0] == trees[i] && r[1..] == trees[i + 1..];
    assert trees[0..] == trees;
    assert PrintItems(r) == p + rest by {
      if |r| > 1 {
        Associate(p, ",", PrintItems(r[1..]));
      } else {
        assert p + "" == p;
      }
    }
    Associate(before, p, rest);
    if i > 0 {
      Associate(before, ",", p + rest);
      Associate(before + ",", p, rest);
    }
  }

  function FieldsLeft(fields: seq<Field>, i: nat): string
    requires i <= |fields|
  {
    if i == 0 then PrintFields(fields)
    else if i == |fields| then ""
    else "," + PrintFields(fields[i..])
  }

  lemma FieldWritten(fields: seq<Field>, i: nat, before: string)
    requires i < |fields|
    ensures before + FieldsLeft(fields, i) ==
            (if i > 0 then before + "," else before) + Quote(fields[i].key) + ":" + Print(fields[i].value)
            + FieldsLeft(fields, i + 1)
  {
    var r := fields[i..];
    var q, v := Quote(fields[i].key), Print(fields[i].value);
    var p, rest := PrintField(fields[i]), FieldsLeft(fields, i + 1);
    assert r[0] == fields[i] && r[1..] == fields[i + 1..];
    assert fields[0..] == fields;
    assert PrintFields(r) == p + rest by {
      if |r| > 1 {
        Associate(p, ",", PrintFields(r[1..]));
      } else {
        assert p + "" == p;
      }
    }
    var b := if i > 0 then before + "," else before;
    if i > 0 {
      Associate(before, ",", p + rest);
    }
    Associate(b, p, rest);
    Associate(b, q + ":", v);
    Associate(b, q, ":");
  }

  /** The tree whose text is the canonical form of a value. */
  ghost function TreeOf<N>(v: Value<N>, text: N -> Option<string>): Tree
    requires Encodable(v, text)
  {
    Layout(Texts(v, text))
  }

  lemma TreeOfArray<N>(items: seq<Value<N>>, text: N -> Option<string>) returns (trees: seq<Tree>)
    requires Encodable(VArr(items), text)
    ensures TreeOf(VArr(items), text) == Arr(trees) && |trees| == |items|
    ensures forall i :: 0 <= i < |items| ==> trees[i] == TreeOf(items[i], text)
  {
    trees := TreeOf(VArr(items), text).items;
  }

  ghost predicate IsMember<N>(f: Field, k: string, members: map<string, Value<N>>, text: N -> Option<string>)
  {
    k in members && Encodable(members[k], text) && f == Field(k, TreeOf(members[k], text))
  }

  ghost predicate AreMembers<N>(fields: seq<Field>, keys: seq<string>, members: map<string, Value<N>>,
                                text: N -> Option<string>)
  {
    |fields| == |keys| && forall i :: 0 <= i < |keys| ==> IsMember(fields[i], keys[i], members, text)
  }

  lemma TreeOfObject<N>(members: map<string, Value<N>>, text: N -> Option<string>) returns (fields: seq<Field>)
    requires Encodable(VObj(members), text)
    ensures TreeOf(VObj(members), text) == Obj(fields)
    ensures AreMembers(fields, SortedKeys(members.Keys), members, text)
  {
    fields := TreeOf(VObj(members), text).fields;
    var keys := SortedKeys(members.Keys);
    assert Texts(VObj(members), text).members.Keys == members.Keys;
    forall i | 0 <= i < |keys| ensures keys[i] in members {
      assert keys[i] in Elements(keys);
    }
  }

  // ---- the writer ----

  /** Append a value's canonical text; an error, with the buffer left as it is then, when a number has none. */
  method Write<N>(buf: Buffer, v: Value<N>, text: N -> Option<string>) returns (ok: bool)
    modifies buf
    ensures ok <==> Encodable(v, text)
    ensures ok ==> buf.bytes == old(buf.bytes) + Canonical(v, text)
    decreases v, 3
  {
    match v {
      case VNull => buf.WriteString("null");
      case VBool(b) =>
        if b {
          buf.WriteString("true");
        } else {
          buf.WriteString("false");
        }
      case VStr(s) => buf.WriteJsonString(s);
      case VNum(n) =>
        var t := text(n);
        if t.None? {
          return false;
        }
        buf.WriteString(t.value);
      case VArr(items) =>
        ok := WriteArray(buf, items, text);
        return;
      case VObj(members) =>
        ok := WriteObject(buf, members, text);
        return;
    }
    ok := true;
  }

  method WriteArray<N>(buf: Buffer, items: seq<Value<N>>, text: N -> Option<string>) returns (ok: bool)
    modifies buf
    ensures ok <==> Encodable(VArr(items), text)
    ensures ok ==> buf.bytes == old(buf.bytes) + Canonical(VArr(items), text)
    decreases VArr(items), 2
  {
    buf.WriteString("[");
    ghost var start := buf.bytes;
    ghost var trees := [];
    ghost var good := Encodable(VArr(items), text);
    if good {
      trees := TreeOfArray(items, text);
    }
    for i := 0 to |items|
      invariant forall j :: 0 <= j < i ==> Encodable(items[j], text)
      invariant good ==> buf.bytes + ItemsLeft(trees, i) == start + PrintItems(trees)
    {
      if good {
        ItemWritten(trees, i, buf.bytes);
      }
      if i > 0 {
        buf.WriteString(",");
      }
      var done := Write(buf, items[i], text);
      if !done {
        return false;
      }
    }
    if good {
      assert buf.bytes == start + PrintItems(trees) by {
        assert buf.bytes + "" == buf.bytes;
      }
    }
    buf.WriteString("]");
    if good {
      Associate(old(buf.bytes), "[", PrintItems(trees));
      Associate(old(buf.bytes), "[" + PrintItems(trees), "]");
    }
    ok := true;
  }

  method WriteObject<N>(buf: Buffer, members: map<string, Value<N>>, text: N -> Option<string>) returns (ok: bool)
    modifies buf
    ensures ok <==> Encodable(VObj(members), text)
    ensures ok ==> buf.bytes == old(buf.bytes) + Canonical(VObj(members), text)
    decreases VObj(members), 2
  {
    var found := CollectKeys(members);
    var keys := SortKeys(found);
    forall i | 0 <= i < |keys| ensures keys[i] in members {
      assert keys[i] in Elements(keys);
    }
    buf.WriteString("{");
    ghost var fields := [];
    if Encodable(VObj(members), text) {
      fields := TreeOfObject(members, text);
    }
    ok := WriteMembers(buf, keys, members, text, fields);
    buf.WriteString("}");
    if ok {
      forall k | k in members ensures Encodable(members[k], text) {
        assert k in Elements(keys);
      }
      Associate(old(buf.bytes), "{", PrintFields(fields));
      Associate(old(buf.bytes), "{" + PrintFields(fields), "}");
    }
  }

  method WriteMembers<N>(buf: Buffer, keys: seq<string>, members: map<string, Value<N>>, text: N -> Option<string>,
                         ghost fields: seq<Field>)
    returns (ok: bool)
    requires forall i :: 0 <= i < |keys| ==> keys[i] in members
    modifies buf
    ensures ok <==> forall i :: 0 <= i < |keys| ==> Encodable(members[keys[i]], text)
    ensures ok && AreMembers(fields, keys, members, text) ==> buf.bytes == old(buf.bytes) + PrintFields(fields)
    decreases VObj(members), 1
  {
    ghost var good := AreMembers(fields, keys, members, text);
    for i := 0 to |keys|
      invariant forall j :: 0 <= j < i ==> Encodable(members[keys[j]], text)
      invariant good ==> buf.bytes + FieldsLeft(fields, i) == old(buf.bytes) + PrintFields(fields)
    {
      var k := keys[i];
      if good {
        assert IsMember(fields[i], k, members, text);
        FieldWritten(fields, i, buf.bytes);
      }
      if i > 0 {
        buf.WriteString(",");
      }
      var done := WriteMember(buf, k, members, text);
      if !done {
        return false;
      }
    }
    if good {
      assert buf.bytes + "" == buf.bytes;
    }
    ok := true;
  }

  method WriteMember<N>(buf: Buffer, k: string, members: map<string, Value<N>>, text: N -> Option<string>)
    returns (ok: bool)
    requires k in members
    modifies buf
    ensures ok <==> Encodable(members[k], text)
    ensures ok ==> buf.bytes == old(buf.bytes) + Quote(k) + ":" + Print(TreeOf(members[k], text))
    decreases VObj(members), 0
  {
    buf.WriteJsonString(k);
    buf.WriteString(":");
    ok := Write(buf, members[k], text);
  }

  /**
   The canonical bytes of a value, or an error when a number has no text. Read as JSON, the bytes are the
   value, with its members in order.
   */
  method Marshal<N(!new)>(v: Value<N>, text: N -> Option<string>) returns (r: Option<string>)
    requires GoodTexts(text)
    ensures r == if Encodable(v, text) then Some(Canonical(v, text)) else None
    ensures r.Some? ==> var t := ReadText(r.value); t.Some? && Ordered(t.value) && Stands(t.value, v, text)
  {
    var buf := new Buffer();
    var ok := Write(buf, v, text);
    r := if ok then Some(buf.bytes) else None;
    assert ok ==> "" + Canonical(v, text) == Canonical(v, text);
    if ok {
      CanonicalReads(v, text);
    }
  }
}
