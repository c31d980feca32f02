/**
 The memory store's authorization grants: per agent, one field for each publisher domain and type, with the
 two joined into the field name; and the index and the store written together.
 */
module AuthStore {
  import opened Text
  import opened AuthGrants
  import opened AuthIndex

  type Auth = map<string, map<string, Grant>>

  function FieldKey(domain: string, kind: string): string { domain + "|" + kind }

  predicate HasPrefix(s: string, p: string) { |p| <= |s| && s[..|p|] == p }

  lemma DomainEnds(domain: string, rest: string)
    requires ValidDomain(domain)
    ensures Find(FieldKey(domain, rest), '|') == |domain|
  {
    assert FieldKey(domain, rest) == domain + ("|" + rest);
    FindInConcat(domain, "|" + rest, '|');
  }

  /** The separator ends the domain: a field name has one reading. */
  lemma PrefixExactly(domain: string, kind: string, d: string)
    requires ValidDomain(domain) && ValidDomain(d)
    ensures HasPrefix(FieldKey(domain, kind), d + "|") <==> domain == d
  {
    var f, p := FieldKey(domain, kind), d + "|";
    DomainEnds(domain, kind);
    if domain == d {
      assert f == p + kind;
    }
    if HasPrefix(f, p) {
      DomainEnds(d, f[|p|..]);
      assert f == FieldKey(d, f[|p|..]);
      assert f[..|d|] == d && f[..|domain|] == domain;
    }
  }

  lemma FieldKeyInjective(domain: string, kind: string, domain': string, kind': string)
    requires ValidDomain(domain) && ValidDomain(domain')
    requires FieldKey(domain, kind) == FieldKey(domain', kind')
    ensures domain == domain' && kind == kind'
  {
    assert FieldKey(domain', kind')[..|domain'| + 1] == domain' + "|";
    PrefixExactly(domain, kind, domain');
    assert FieldKey(domain, kind)[|domain| + 1..] == kind && FieldKey(domain', kind')[|domain'| + 1..] == kind';
  }

  function Field(auth: Auth, a: string, f: string): Option<Grant> {
    if a in auth && f in auth[a] then Some(auth[a][f]) else None
  }

  /** Every field holds the grant its name says, and every grant has its field. */
  ghost predicate FieldsRight(auth: Auth, grants: Grants) {
    && (forall a, f :: Field(auth, a, f).Some? ==> FieldRight(Field(auth, a, f).value, grants, a, f))
    && (forall k <- grants :: GrantRight(auth, grants[k], k))
  }

  ghost predicate FieldRight(g: Grant, grants: Grants, a: string, f: string) {
    g.agent == a && ValidDomain(g.domain) && f == FieldKey(g.domain, g.kind) && KeyOf(g) in grants && grants[KeyOf(g)] == g
  }

  ghost predicate GrantRight(auth: Auth, g: Grant, k: Key) {
    KeyOf(g) == k && ValidDomain(k.domain) && Field(auth, k.agent, FieldKey(k.domain, k.kind)) == Some(g)
  }

  lemma PutFields(auth: Auth, grants: Grants, g: Grant)
    requires FieldsRight(auth, grants) && ValidDomain(g.domain)
    ensures var byKey := if g.agent in auth then auth[g.agent] else map[];
            FieldsRight(auth[g.agent := byKey[FieldKey(g.domain, g.kind) := g]], Apply(grants, Put(g)))
  {
    hide ValidDomain, FieldKey;
    var name := FieldKey(g.domain, g.kind);
    var byKey := if g.agent in auth then auth[g.agent] else map[];
    var t, m := auth[g.agent := byKey[name := g]], Apply(grants, Put(g));
    forall a, f | Field(t, a, f).Some? ensures FieldRight(Field(t, a, f).value, m, a, f) {
      if a != g.agent || f != name {
        assert FieldRight(Field(auth, a, f).value, grants, a, f);
      }
    }
    forall k <- m ensures GrantRight(t, m[k], k) {
      if k != KeyOf(g) {
        assert GrantRight(auth, grants[k], k);
        if k.agent == g.agent && FieldKey(k.domain, k.kind) == name {
          FieldKeyInjective(k.domain, k.kind, g.domain, g.kind);
        }
      }
    }
  }

  lemma DropFields(auth: Auth, grants: Grants, a: string, d: string, t: Auth)
    requires FieldsRight(auth, grants) && ValidDomain(d)
    requires forall b, f :: Field(t, b, f) == if b == a && HasPrefix(f, d + "|") then None else Field(auth, b, f)
    ensures FieldsRight(t, Apply(grants, DropPair(a, d)))
  {
    hide ValidDomain, FieldKey, HasPrefix, Field;
    var m := Apply(grants, DropPair(a, d));
    forall b, f | Field(t, b, f).Some? ensures FieldRight(Field(t, b, f).value, m, b, f) {
      var g := Field(auth, b, f).value;
      assert FieldRight(g, grants, b, f);
      PrefixExactly(g.domain, g.kind, d);
    }
    forall k <- m ensures GrantRight(t, m[k], k) {
      assert GrantRight(auth, grants[k], k);
      PrefixExactly(k.domain, k.kind, d);
    }
  }

  function WithoutFields(auth: Auth, a: string, prefix: string): Auth {
    if a !in auth then auth
    else
      var left := map f | f in auth[a] && !HasPrefix(f, prefix) :: auth[a][f];
      if left == map[] then auth - {a} else auth[a := left]
  }

  lemma WithoutPrefixed(auth: Auth, a: string, prefix: string, b: string, f: string)
    ensures Field(WithoutFields(auth, a, prefix), b, f)
         == if b == a && HasPrefix(f, prefix) then None else Field(auth, b, f)
  {
    hide HasPrefix;
    if a in auth && b == a && f in auth[a] && !HasPrefix(f, prefix) {
      var left := map g | g in auth[a] && !HasPrefix(g, prefix) :: auth[a][g];
      assert f in left;
    }
  }

  class MemoryStore {
    var auth: Auth
    ghost var grants: Grants

    ghost predicate Valid()
      reads this
    {
      FieldsRight(auth, grants)
    }

    constructor ()
      ensures Valid() && grants == map[]
    {
      auth, grants := map[], map[];
    }

    method PutAuth(g: Grant) returns (ok: bool)
      requires Valid()
      modifies this
      ensures Valid() && ok == Accepts(Put(g))
      ensures grants == if ok then Apply(old(grants), Put(g)) else old(grants)
      ensures ok <==> g.domain != "" && forall i :: 0 <= i < |g.domain| ==>
                        g.domain[i] != '|' && g.domain[i] as int > 0x20 && g.domain[i] as int != 0x7F
      ensures ok ==> grants == old(grants)[Key(g.agent, g.domain, g.kind) := g]
    {
      if !ValidDomain(g.domain) {
        return false;
      }
      PutFields(auth, grants, g);
      hide FieldsRight;
      var byKey := if g.agent in auth then auth[g.agent] else map[];
      auth := auth[g.agent := byKey[FieldKey(g.domain, g.kind) := g]];
      grants := Apply(grants, Put(g));
      return true;
    }

    method RemoveAuthEntry(agent: string, domain: string) returns (ok: bool)
      requires Valid()
      modifies this
      ensures Valid() && ok == Accepts(DropPair(agent, domain))
      ensures grants == if ok then Apply(old(grants), DropPair(agent, domain)) else old(grants)
      ensures ok ==> forall k :: k in grants <==> k in old(grants) && (k.agent != agent || k.domain != domain)
      ensures forall k <- grants :: k in old(grants) && grants[k] == old(grants)[k]
    {
      if !ValidDomain(domain) {
        return false;
      }
      if agent in auth {
        var byKey := DropPrefixed(auth[agent], domain + "|");
        auth := if |byKey| == 0 then auth - {agent} else auth[agent := byKey];
      }
      assert auth == WithoutFields(old(auth), agent, domain + "|");
      forall b, f ensures Field(auth, b, f)
                == if b == agent && HasPrefix(f, domain + "|") then None else Field(old(auth), b, f)
      {
        WithoutPrefixed(old(auth), agent, domain + "|", b, f);
      }
      hide HasPrefix, Field, FieldsRight;
      DropFields(old(auth), grants, agent, domain, auth);
      grants := Apply(grants, DropPair(agent, domain));
      return true;
    }

    method RemoveAuthAgent(agent: string)
      requires Valid()
      modifies this
      ensures Valid() && grants == Apply(old(grants), DropAgent(agent))
    {
      auth := auth - {agent};
      forall a, f | Field(auth, a, f).Some?
        ensures FieldRight(Field(auth, a, f).value, Apply(grants, DropAgent(agent)), a, f)
      {
        assert FieldRight(Field(old(auth), a, f).value, grants, a, f);
      }
      forall k <- Apply(grants, DropAgent(agent)) ensures GrantRight(auth, grants[k], k) {
        assert GrantRight(old(auth), grants[k], k);
      }
      grants := Apply(grants, DropAgent(agent));
    }

    method ClearAuth()
      modifies this
      ensures Valid() && grants == map[]
    {
      auth, grants := map[], map[];
    }

    /** All grants, each once, in no particular order. */
    method LoadAuth() returns (out: seq<Grant>)
      requires Valid()
      ensures Loaded(out, grants)
      ensures forall i, j :: 0 <= i < j < |out| ==> KeyOf(out[i]) != KeyOf(out[j])
    {
      out := [];
      var todo := auth.Keys;
      while todo != {}
        invariant todo <= auth.Keys
        invariant forall g :: g in out <==> g.agent in auth.Keys - todo && Holds(auth, g)
        invariant Distinct(out)
        decreases todo
      {
        var a :| a in todo;
        FieldsDiffer(auth, grants, a);
        var fields := ListFields(auth[a]);
        forall g ensures g in out + fields <==> g.agent in auth.Keys - (todo - {a}) && Holds(auth, g) {
          FieldsOf(auth, grants, a, fields, g);
        }
        forall g ensures g in fields ==> g.agent == a && g !in out {
          FieldsOf(auth, grants, a, fields, g);
        }
        DistinctConcat(out, fields);
        out, todo := out + fields, todo - {a};
      }
      forall g ensures g in out <==> KeyOf(g) in grants && grants[KeyOf(g)] == g {
        HoldsExactly(auth, grants, g);
      }
      KeysDiffer(out, grants);
    }
  }

  ghost predicate Distinct(list: seq<Grant>) { forall i, j :: 0 <= i < j < |list| ==> list[i] != list[j] }

  lemma DistinctConcat(a: seq<Grant>, b: seq<Grant>)
    requires Distinct(a) && Distinct(b) && forall g :: g in b ==> g !in a
    ensures Distinct(a + b)
  {
    forall i, j | 0 <= i < j < |a + b| ensures (a + b)[i] != (a + b)[j] {
      if i < |a| <= j {
        assert b[j - |a|] in b && a[i] in a;
      }
    }
  }

  /** Different grants of one map have different keys. */
  lemma KeysDiffer(list: seq<Grant>, grants: Grants)
    requires Distinct(list) && Loaded(list, grants)
    ensures forall i, j :: 0 <= i < j < |list| ==> KeyOf(list[i]) != KeyOf(list[j])
  {
    forall i, j | 0 <= i < j < |list| ensures KeyOf(list[i]) != KeyOf(list[j]) {
      assert list[i] in list && list[j] in list;
    }
  }

  /** The fields of an agent hold different grants. */
  lemma FieldsDiffer(auth: Auth, grants: Grants, a: string)
    requires FieldsRight(auth, grants) && a in auth
    ensures forall f <- auth[a], g <- auth[a] :: f != g ==> auth[a][f] != auth[a][g]
  {
    forall f <- auth[a], g <- auth[a] | f != g ensures auth[a][f] != auth[a][g] {
      assert Field(auth, a, f).Some? && Field(auth, a, g).Some?;
      assert FieldRight(auth[a][f], grants, a, f) && FieldRight(auth[a][g], grants, a, g);
    }
  }

  /** The store has a field with this grant. */
  ghost predicate Holds(auth: Auth, g: Grant) { Field(auth, g.agent, FieldKey(g.domain, g.kind)) == Some(g) }

  lemma HoldsExactly(auth: Auth, grants: Grants, g: Grant)
    requires FieldsRight(auth, grants)
    ensures Holds(auth, g) <==> KeyOf(g) in grants && grants[KeyOf(g)] == g
  {
    hide FieldKey;
    if KeyOf(g) in grants {
      assert GrantRight(auth, grants[KeyOf(g)], KeyOf(g));
    }
    if Holds(auth, g) {
      assert FieldRight(g, grants, g.agent, FieldKey(g.domain, g.kind));
    }
  }

  lemma FieldsOf(auth: Auth, grants: Grants, a: string, fields: seq<Grant>, g: Grant)
    requires FieldsRight(auth, grants) && a in auth
    requires g in fields <==> exists f :: f in auth[a] && auth[a][f] == g
    ensures g in fields <==> g.agent == a && Holds(auth, g)
  {
    hide FieldKey;
    if g in fields {
      var f :| f in auth[a] && auth[a][f] == g;
      assert Field(auth, a, f) == Some(g);
      assert FieldRight(g, grants, a, f);
    }
  }

  ghost predicate Loaded(list: seq<Grant>, grants: Grants) {
    forall g :: g in list <==> KeyOf(g) in grants && grants[KeyOf(g)] == g
  }

  method ListFields(byKey: map<string, Grant>) returns (out: seq<Grant>)
    requires forall f <- byKey, g <- byKey :: f != g ==> byKey[f] != byKey[g]
    ensures forall g :: g in out <==> exists f :: f in byKey && byKey[f] == g
    ensures Distinct(out)
  {
    out := [];
    var todo := byKey.Keys;
    while todo != {}
      invariant todo <= byKey.Keys
      invariant forall g :: g in out <==> exists f :: f in byKey && f !in todo && byKey[f] == g
      invariant Distinct(out)
      decreases todo
    {
      var f :| f in todo;
      assert byKey[f] !in out;
      DistinctConcat(out, [byKey[f]]);
      out, todo := out + [byKey[f]], todo - {f};
    }
  }

  method DropPrefixed(byKey: map<string, Grant>, prefix: string) returns (left: map<string, Grant>)
    ensures left == map f | f in byKey && !HasPrefix(f, prefix) :: byKey[f]
  {
    left := byKey;
    var todo := byKey.Keys;
    while todo != {}
      invariant todo <= byKey.Keys
      invariant left == map f | f in byKey && (f in todo || !HasPrefix(f, prefix)) :: byKey[f]
      decreases todo
    {
      var f :| f in todo;
      if HasPrefix(f, prefix) {
        left := left - {f};
      }
      todo := todo - {f};
    }
  }

  // ---- memory and store together ----

  /** The grants of a list, the last of each identity. */
  ghost function Collected(list: seq<Grant>, n: nat): Grants
    requires n <= |list|
  {
    if n == 0 then map[] else Apply(Collected(list, n - 1), Put(list[n - 1]))
  }

  lemma {:induction false} CollectedFrom(list: seq<Grant>, grants: Grants, n: nat)
    requires n <= |list| && Loaded(list, grants)
    ensures forall k <- Collected(list, n) :: k in grants && Collected(list, n)[k] == grants[k]
    ensures forall i :: 0 <= i < n ==> KeyOf(list[i]) in Collected(list, n)
  {
    if n > 0 {
      CollectedFrom(list, grants, n - 1);
      assert list[n - 1] in list;
    }
  }

  lemma CollectedAll(list: seq<Grant>, grants: Grants)
    requires Loaded(list, grants) && forall k <- grants :: KeyOf(grants[k]) == k
    ensures Collected(list, |list|) == grants
  {
    CollectedFrom(list, grants, |list|);
    forall k <- grants ensures k in Collected(list, |list|) {
      assert grants[k] in list;
      var i :| 0 <= i < |list| && list[i] == grants[k];
    }
  }

  class PersistedIndex {
    const index: Index
    const store: MemoryStore
    var hydrated: bool

    constructor (index: Index, store: MemoryStore)
      ensures this.index == index && this.store == store && !hydrated
    {
      this.index, this.store, hydrated := index, store, false;
    }

    ghost predicate Valid()
      reads this, index, store
    {
      index.Valid() && store.Valid()
    }

    /** Memory changes whatever the store says; `up` is whether the store could be reached. */
    method Add(g: Grant, up: bool) returns (ok: bool)
      requires Valid()
      modifies index, store
      ensures Valid() && ok == (up && Accepts(Put(g)))
      ensures index.grants == Apply(old(index.grants), Put(g))
      ensures store.grants == if ok then Apply(old(store.grants), Put(g)) else old(store.grants)
    {
      index.Add(g);
      if !up {
        return false;
      }
      ok := store.PutAuth(g);
    }

    method RemoveEntry(agent: string, domain: string, up: bool) returns (ok: bool)
      requires Valid()
      modifies index, store
      ensures Valid() && ok == (up && Accepts(DropPair(agent, domain)))
      ensures index.grants == Apply(old(index.grants), DropPair(agent, domain))
      ensures store.grants == if ok then Apply(old(store.grants), DropPair(agent, domain)) else old(store.grants)
    {
      index.RemoveEntry(agent, domain);
      if !up {
        return false;
      }
      ok := store.RemoveAuthEntry(agent, domain);
    }

    method RemoveAgent(agent: string, up: bool) returns (ok: bool)
      requires Valid()
      modifies index, store
      ensures Valid() && ok == up
      ensures index.grants == Apply(old(index.grants), DropAgent(agent))
      ensures store.grants == if ok then Apply(old(store.grants), DropAgent(agent)) else old(store.grants)
    {
      index.RemoveAgent(agent);
      if up {
        store.RemoveAuthAgent(agent);
      }
      return up;
    }

    method Clear(up: bool) returns (ok: bool)
      requires Valid()
      modifies index, store
      ensures Valid() && ok == up
      ensures index.grants == map[]
      ensures store.grants == if ok then map[] else old(store.grants)
    {
      index.Clear();
      if up {
        store.ClearAuth();
      }
      return up;
    }

    /** Loads what the store holds over what memory holds, the first time it succeeds. */
    method Hydrate(up: bool) returns (ok: bool)
      requires Valid()
      modifies this`hydrated, index
      ensures Valid() && store.grants == old(store.grants)
      ensures ok == (old(hydrated) || up) && hydrated == ok
      ensures index.grants == if !old(hydrated) && up then old(index.grants) + store.grants else old(index.grants)
    {
      if hydrated {
        return true;
      }
      if !up {
        return false;
      }
      hydrated := true;
      var list := store.LoadAuth();
      for i := 0 to |list|
        invariant Valid() && hydrated && store.grants == old(store.grants)
        invariant index.grants == old(index.grants) + Collected(list, i)
      {
        MergePut(old(index.grants), Collected(list, i), list[i]);
        index.Add(list[i]);
      }
      KeysMatch(store.auth, store.grants);
      CollectedAll(list, store.grants);
      return true;
    }
  }

  lemma MergePut(a: Grants, b: Grants, g: Grant)
    ensures a + Apply(b, Put(g)) == Apply(a + b, Put(g))
  {
  }

  lemma KeysMatch(auth: Auth, grants: Grants)
    requires FieldsRight(auth, grants)
    ensures forall k <- grants :: KeyOf(grants[k]) == k
  {
    forall k <- grants ensures KeyOf(grants[k]) == k {
      assert GrantRight(auth, grants[k], k);
    }
  }
}
