/**
 The canonical JSON writer shared by the request-signing encoder and the idempotency payload hash.
 Values are generic in how a number is represented; each encoder supplies the text of its numbers.
 */
module CanonicalJson {
  import opened Text
  import opened JsonText
  import opened KeyOrder

  datatype Value<N> =
    | VNull
    | VBool(b: bool)
    | VNum(n: N)
    | VStr(s: string)
    | VArr(items: seq<Value<N>>)
    | VObj(members: map<string, Value<N>>)

  /** Every number in the value has a text; otherwise encoding it is an error. */
  predicate Encodable<N>(v: Value<N>, text: N -> Option<string>)
    decreases v
  {
    match v
    case VNum(n) => text(n).Some?
    case VArr(items) => forall i :: 0 <= i < |items| ==> Encodable(items[i], text)
    case VObj(members) => forall k :: k in members ==> Encodable(members[k], text)
    case _ => true
  }

  /** The value with each number replaced by its text. */
  function Texts<N>(v: Value<N>, text: N -> Option<string>): Value<string>
    requires Encodable(v, text)
    decreases v
  {
    match v
    case VNull => VNull
    case VBool(b) => VBool(b)
    case VNum(n) => VNum(text(n).value)
    case VStr(s) => VStr(s)
    case VArr(items) => VArr(seq(|items|, i requires 0 <= i < |items| => Texts(items[i], text)))
    case VObj(members) => VObj(map k | k in members :: Texts(members[k], text))
  }

  /** The value with its members in canonical order. */
  ghost function Layout(v: Value<string>): Tree
    decreases v
  {
    match v
    case VNull => Null
    case VBool(b) => Bool(b)
    case VNum(n) => Num(n)
    case VStr(s) => Str(s)
    case VArr(items) => Arr(seq(|items|, i requires 0 <= i < |items| => Layout(items[i])))
    case VObj(members) =>
      var keys := SortedKeys(members.Keys);
      Obj(seq(|keys|, i requires 0 <= i < |keys| =>
        assert keys[i] in Elements(keys);
        Field(keys[i], Layout(members[keys[i]]))))
  }

  ghost function Canonical<N>(v: Value<N>, text: N -> Option<string>): string
    requires Encodable(v, text)
  {
    Print(Layout(Texts(v, text)))
  }

  // ---- distinct values have distinct texts ----

  predicate Textual(v: Value<string>)
    decreases v
  {
    match v
    case VNum(n) => IsNumText(n)
    case VArr(items) => forall i :: 0 <= i < |items| ==> Textual(items[i])
    case VObj(members) => forall k :: k in members ==> Textual(members[k])
    case _ => true
  }

  lemma {:induction false} LayoutProper(v: Value<string>)
    requires Textual(v)
    ensures Proper(Layout(v))
    decreases v
  {
    match v
    case VArr(items) =>
      forall i | 0 <= i < |items| ensures Proper(Layout(items[i])) {
        LayoutProper(items[i]);
      }
    case VObj(members) =>
      var keys := SortedKeys(members.Keys);
      forall i | 0 <= i < |keys| ensures keys[i] in members && Proper(Layout(members[keys[i]])) {
        assert keys[i] in Elements(keys);
        LayoutProper(members[keys[i]]);
      }
    case _ =>
  }

  lemma SameMembers(a: map<string, Value<string>>, b: map<string, Value<string>>)
    requires Layout(VObj(a)) == Layout(VObj(b))
    ensures a.Keys == b.Keys
    ensures forall k :: k in a ==> Layout(a[k]) == Layout(b[k])
  {
    var s, t := Layout(VObj(a)).fields, Layout(VObj(b)).fields;
    var keys, other := SortedKeys(a.Keys), SortedKeys(b.Keys);
    forall i | 0 <= i < |keys| ensures keys[i] == other[i] {
      assert s[i].key == t[i].key;
    }
    assert keys == other;
    forall k | k in a ensures Layout(a[k]) == Layout(b[k]) {
      assert k in Elements(keys);
      var i :| 0 <= i < |keys| && keys[i] == k;
      assert s[i].value == t[i].value;
    }
  }

  lemma {:induction false} LayoutInjective(v: Value<string>, w: Value<string>)
    requires Layout(v) == Layout(w)
    ensures v == w
    decreases v
  {
    match v
    case VArr(items) =>
      var s, t := Layout(v).items, Layout(w).items;
      forall i | 0 <= i < |items| ensures items[i] == w.items[i] {
        assert s[i] == t[i];
        LayoutInjective(items[i], w.items[i]);
      }
      assert items == w.items;
    case VObj(members) =>
      SameMembers(members, w.members);
      hide Layout;
      forall k | k in members ensures members[k] == w.members[k] {
        LayoutInjective(members[k], w.members[k]);
      }
      assert members == w.members;
    case _ =>
  }

  ghost predicate GoodTexts<N(!new)>(text: N -> Option<string>)
  {
    forall n :: text(n).Some? ==> IsNumText(text(n).value)
  }

  lemma {:induction false} TextsTextual<N(!new)>(v: Value<N>, text: N -> Option<string>)
    requires GoodTexts(text) && Encodable(v, text)
    ensures Textual(Texts(v, text))
    decreases v
  {
    match v
    case VArr(items) =>
      forall i | 0 <= i < |items| ensures Textual(Texts(items[i], text)) {
        TextsTextual(items[i], text);
      }
    case VObj(members) =>
      forall k | k in members ensures Textual(Texts(members[k], text)) {
        TextsTextual(members[k], text);
      }
    case _ =>
  }

  /** Two values get the same canonical text exactly when they agree up to the texts of their numbers. */
  lemma CanonicalExactly<N(!new)>(v: Value<N>, w: Value<N>, text: N -> Option<string>)
    requires GoodTexts(text) && Encodable(v, text) && Encodable(w, text)
    ensures Canonical(v, text) == Canonical(w, text) <==> Texts(v, text) == Texts(w, text)
  {
    if Canonical(v, text) == Canonical(w, text) {
      var a, b := Texts(v, text), Texts(w, text);
      TextsTextual(v, text);
      TextsTextual(w, text);
      LayoutProper(a);
      LayoutProper(b);
      PrintInjective(Layout(a), Layout(b));
      LayoutInjective(a, b);
    }
  }

  // ---- numbers by value ----

  /** Numbers that have a text have the same text exactly when they are the same number. */
  ghost predicate Faithful<N(!new)>(text: N -> Option<string>, value: N -> real)
  {
    forall m, n :: text(m).Some? && text(n).Some? ==> (text(m) == text(n) <==> value(m) == value(n))
  }

  /** A value with every number replaced by the number it denotes. */
  function Denoted<N>(v: Value<N>, value: N -> real): Value<real>
    decreases v
  {
    match v
    case VNull => VNull
    case VBool(b) => VBool(b)
    case VNum(n) => VNum(value(n))
    case VStr(s) => VStr(s)
    case VArr(items) => VArr(seq(|items|, i requires 0 <= i < |items| => Denoted(items[i], value)))
    case VObj(members) => VObj(map k | k in members :: Denoted(members[k], value))
  }

  lemma {:induction false} TextsExactly<N(!new)>(v: Value<N>, w: Value<N>, text: N -> Option<string>, value: N -> real)
    requires Faithful(text, value)
    requires Encodable(v, text) && Encodable(w, text)
    ensures Texts(v, text) == Texts(w, text) <==> Denoted(v, value) == Denoted(w, value)
    decreases v
  {
    match (v, w)
    case (VNum(m), VNum(n)) =>
      assert text(m) == text(n) <==> value(m) == value(n);
    case (VArr(a), VArr(b)) =>
      forall i | 0 <= i < |a| && i < |b|
        ensures Texts(a[i], text) == Texts(b[i], text) <==> Denoted(a[i], value) == Denoted(b[i], value)
      {
        TextsExactly(a[i], b[i], text, value);
      }
      SeqsAgree(Texts(v, text).items, Texts(w, text).items, Denoted(v, value).items, Denoted(w, value).items);
    case (VObj(a), VObj(b)) =>
      forall k | k in a && k in b
        ensures Texts(a[k], text) == Texts(b[k], text) <==> Denoted(a[k], value) == Denoted(b[k], value)
      {
        TextsExactly(a[k], b[k], text, value);
      }
      MapsAgree(Texts(v, text).members, Texts(w, text).members, Denoted(v, value).members, Denoted(w, value).members);
    case _ =>
  }

  lemma SeqsAgree<X, Y>(s: seq<X>, t: seq<X>, x: seq<Y>, y: seq<Y>)
    requires |s| == |x| && |t| == |y|
    requires forall i :: 0 <= i < |s| && i < |t| ==> (s[i] == t[i] <==> x[i] == y[i])
    ensures s == t <==> x == y
  {
    if s == t {
      assert forall i :: 0 <= i < |s| ==> x[i] == y[i];
    }
    if x == y {
      assert forall i :: 0 <= i < |s| ==> s[i] == t[i];
    }
  }

  lemma MapsAgree<K, X, Y>(s: map<K, X>, t: map<K, X>, x: map<K, Y>, y: map<K, Y>)
    requires s.Keys == x.Keys && t.Keys == y.Keys
    requires forall k :: k in s && k in t ==> (s[k] == t[k] <==> x[k] == y[k])
    ensures s == t <==> x == y
  {
    if s == t {
      assert forall k :: k in s ==> k in y && x[k] == y[k];
    }
    if x == y {
      assert forall k :: k in x ==> k in t && s[k] == t[k];
    }
  }

  /** Two values get the same canonical text exactly when they are the same JSON value. */
  lemma CanonicalDenotes<N(!new)>(v: Value<N>, w: Value<N>, text: N -> Option<string>, value: N -> real)
    requires GoodTexts(text) && Faithful(text, value) && Encodable(v, text) && Encodable(w, text)
    ensures Canonical(v, text) == Canonical(w, text) <==> Denoted(v, value) == Denoted(w, value)
  {
    CanonicalExactly(v, w, text);
    TextsExactly(v, w, text, value);
  }

  // ---- what the canonical text says ----

  /** The members of every object are in the order of their keys, each key once. */
  ghost predicate Ordered(t: Tree) {
    match t
    case Arr(items) => forall i :: 0 <= i < |items| ==> Ordered(items[i])
    case Obj(fields) =>
      && (forall i, j :: 0 <= i < j < |fields| ==> Less(fields[i].key, fields[j].key))
      && (forall i :: 0 <= i < |fields| ==> Ordered(fields[i].value))
    case _ => true
  }

  /** The tree is a JSON value with these texts for its numbers. */
  ghost predicate Stands<N>(t: Tree, v: Value<N>, text: N -> Option<string>)
    decreases v
  {
    match v
    case VNull => t == Null
    case VBool(b) => t == Bool(b)
    case VNum(n) => text(n).Some? && t == Num(text(n).value)
    case VStr(s) => t == Str(s)
    case VArr(items) => t.Arr? && |t.items| == |items| && forall i :: 0 <= i < |items| ==> Stands(t.items[i], items[i], text)
    case VObj(members) =>
      && t.Obj?
      && (forall k <- members :: exists i :: 0 <= i < |t.fields| && t.fields[i].key == k && Stands(t.fields[i].value, members[k], text))
      && (forall i :: 0 <= i < |t.fields| ==> t.fields[i].key in members)
  }

  lemma {:induction false} LayoutOrdered(v: Value<string>)
    ensures Ordered(Layout(v))
    decreases v
  {
    match v
    case VArr(items) =>
      forall i | 0 <= i < |items| ensures Ordered(Layout(items[i])) {
        LayoutOrdered(items[i]);
      }
    case VObj(members) =>
      var keys := SortedKeys(members.Keys);
      SortedKeysAscending(members.Keys);
      forall i | 0 <= i < |keys| ensures keys[i] in members && Ordered(Layout(members[keys[i]])) {
        assert keys[i] in Elements(keys);
        LayoutOrdered(members[keys[i]]);
      }
    case _ =>
  }

  lemma LayoutFields(members: map<string, Value<string>>)
    ensures var t, keys := Layout(VObj(members)), SortedKeys(members.Keys);
            && t.Obj? && |t.fields| == |keys| && Elements(keys) == members.Keys
            && forall i :: 0 <= i < |keys| ==> keys[i] in members && t.fields[i] == Field(keys[i], Layout(members[keys[i]]))
  {
    var keys := SortedKeys(members.Keys);
    assert forall i :: 0 <= i < |keys| ==> keys[i] in Elements(keys);
  }

  lemma TextsMembers<N>(members: map<string, Value<N>>, text: N -> Option<string>)
    requires Encodable(VObj(members), text)
    ensures var v := Texts(VObj(members), text);
            v.VObj? && v.members.Keys == members.Keys && forall k <- members :: v.members[k] == Texts(members[k], text)
  {
  }

  /** Fields for the very keys of an object, each standing for its member, stand for the object. */
  lemma FieldsStand<N>(fields: seq<Field>, keys: seq<string>, members: map<string, Value<N>>, text: N -> Option<string>)
    requires Elements(keys) == members.Keys && |fields| == |keys|
    requires forall i :: 0 <= i < |keys| ==> fields[i].key == keys[i]
    requires forall i :: 0 <= i < |keys| && keys[i] in members ==> Stands(fields[i].value, members[keys[i]], text)
    ensures Stands(Obj(fields), VObj(members), text)
  {
    forall i | 0 <= i < |keys| ensures fields[i].key in members {
      assert keys[i] in Elements(keys);
    }
    forall k <- members
      ensures exists i :: 0 <= i < |fields| && fields[i].key == k && Stands(fields[i].value, members[k], text)
    {
      assert k in Elements(keys);
      var i :| 0 <= i < |keys| && keys[i] == k;
      assert fields[i].key == k;
    }
  }

  lemma {:induction false} LayoutStands<N>(v: Value<N>, text: N -> Option<string>)
    requires Encodable(v, text)
    ensures Stands(Layout(Texts(v, text)), v, text)
    decreases v
  {
    match v
    case VArr(items) =>
      forall i | 0 <= i < |items| ensures Stands(Layout(Texts(items[i], text)), items[i], text) {
        LayoutStands(items[i], text);
      }
    case VObj(members) =>
      hide Layout, Texts, Stands;
      forall k <- members ensures Stands(Layout(Texts(members[k], text)), members[k], text) {
        LayoutStands(members[k], text);
      }
      TextsMembers(members, text);
      var w := Texts(v, text).members;
      LayoutFields(w);
      FieldsStand(Layout(VObj(w)).fields, SortedKeys(w.Keys), members, text);
    case _ =>
  }

  /** The canonical text is JSON, and read as JSON it is the value, with its members in order. */
  lemma CanonicalReads<N(!new)>(v: Value<N>, text: N -> Option<string>)
    requires GoodTexts(text) && Encodable(v, text)
    ensures var t := ReadText(Canonical(v, text)); t.Some? && Ordered(t.value) && Stands(t.value, v, text)
  {
    TextsTextual(v, text);
    LayoutProper(Texts(v, text));
    ReadPrinted(Layout(Texts(v, text)));
    LayoutOrdered(Texts(v, text));
    LayoutStands(v, text);
  }
}
