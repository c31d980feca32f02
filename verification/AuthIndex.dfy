/**
 The in-memory authorization index, agent to domain to grants with a reverse index from domain to agents,
 the memory store with its encoded field names, and the dual write of one to the other.
 */
module AuthIndex {
  import opened AuthGrants

  type Primary = map<string, map<string, seq<Grant>>>
  type Reverse = map<string, set<string>>

  ghost predicate UniqueKinds(list: seq<Grant>) {
    forall i, j :: 0 <= i < j < |list| ==> list[i].kind != list[j].kind
  }

  /** The list under an agent and domain, empty where there is none. */
  function ListOf(primary: Primary, a: string, d: string): seq<Grant> {
    if a in primary && d in primary[a] then primary[a][d] else []
  }

  /** The agents under a domain, none where it is absent. */
  function AgentsOf(reverse: Reverse, d: string): set<string> { if d in reverse then reverse[d] else {} }

  /** The list of an agent and domain holds exactly the grants of that pair, one per type. */
  ghost predicate ListRight(list: seq<Grant>, grants: Grants, a: string, d: string) {
    && UniqueKinds(list)
    && (forall i :: 0 <= i < |list| ==> KeyOf(list[i]) == Key(a, d, list[i].kind))
    && (forall i :: 0 <= i < |list| ==> KeyOf(list[i]) in grants && grants[KeyOf(list[i])] == list[i])
    && (forall k <- grants :: k.agent == a && k.domain == d ==> KeyOf(grants[k]) == k && grants[k] in list)
  }

  ghost predicate PrimaryRight(primary: Primary, grants: Grants) {
    forall a, d :: ListRight(ListOf(primary, a, d), grants, a, d)
  }

  /** A domain's agents are those with a grant for it. */
  ghost predicate ReverseRight(primary: Primary, reverse: Reverse) {
    forall a, d :: a in AgentsOf(reverse, d) <==> ListOf(primary, a, d) != []
  }

  /** Nothing empty is kept. */
  ghost predicate Tidy(primary: Primary, reverse: Reverse) {
    && (forall a <- primary :: primary[a] != map[])
    && (forall a <- primary, d <- primary[a] :: primary[a][d] != [])
    && (forall d <- reverse :: reverse[d] != {})
  }

  ghost predicate Right(primary: Primary, reverse: Reverse, grants: Grants) {
    PrimaryRight(primary, grants) && ReverseRight(primary, reverse) && Tidy(primary, reverse)
  }

  /** Puts a grant into a list: in place of the one of its type, or at the end. */
  method Replace(list: seq<Grant>, g: Grant) returns (out: seq<Grant>)
    requires UniqueKinds(list)
    ensures UniqueKinds(out) && out != []
    ensures forall x :: x in out <==> x == g || (x in list && x.kind != g.kind)
  {
    for i := 0 to |list|
      invariant forall j :: 0 <= j < i ==> list[j].kind != g.kind
    {
      if list[i].kind == g.kind {
        out := list[i := g];
        assert out[i] == g;
        forall x ensures x in out <==> x == g || (x in list && x.kind != g.kind) {
          ReplacedAt(list, i, g, x);
        }
        return;
      }
    }
    out := list + [g];
    assert out[|list|] == g;
  }

  lemma ReplacedAt(list: seq<Grant>, i: nat, g: Grant, x: Grant)
    requires UniqueKinds(list) && i < |list| && list[i].kind == g.kind
    ensures x in list[i := g] <==> x == g || (x in list && x.kind != g.kind)
  {
    var out := list[i := g];
    assert out[i] == g;
    if x in list && x.kind != g.kind {
      var j :| 0 <= j < |list| && list[j] == x;
      assert out[j] == x;
    }
    if x in out {
      var j :| 0 <= j < |out| && out[j] == x;
      assert j != i ==> list[j] == x && list[j].kind != list[i].kind;
    }
  }

  function WithList(primary: Primary, a: string, d: string, out: seq<Grant>): Primary {
    primary[a := (if a in primary then primary[a] else map[])[d := out]]
  }

  function WithoutPair(primary: Primary, a: string, d: string): Primary {
    if a !in primary then primary
    else if primary[a] - {d} == map[] then primary - {a}
    else primary[a := primary[a] - {d}]
  }

  function WithAgent(reverse: Reverse, a: string, d: string): Reverse { reverse[d := AgentsOf(reverse, d) + {a}] }

  function WithoutAgent(reverse: Reverse, a: string, d: string): Reverse {
    if d !in reverse then reverse
    else if reverse[d] - {a} == {} then reverse - {d}
    else reverse[d := reverse[d] - {a}]
  }

  lemma WithoutPairLists(primary: Primary, a: string, d: string, x: string, y: string)
    ensures ListOf(WithoutPair(primary, a, d), x, y) == if x == a && y == d then [] else ListOf(primary, x, y)
  {
    if a in primary && x == a && y in primary[a] && y != d {
      assert y in primary[a] - {d};
    }
  }

  lemma WithoutAgentSets(reverse: Reverse, a: string, d: string, y: string)
    ensures AgentsOf(WithoutAgent(reverse, a, d), y) == if y == d then AgentsOf(reverse, d) - {a} else AgentsOf(reverse, y)
  {
  }

  lemma WithListLists(primary: Primary, a: string, d: string, out: seq<Grant>, x: string, y: string)
    ensures ListOf(WithList(primary, a, d, out), x, y) == if x == a && y == d then out else ListOf(primary, x, y)
  {
  }

  lemma WithAgentSets(reverse: Reverse, a: string, d: string, y: string)
    ensures AgentsOf(WithAgent(reverse, a, d), y) == if y == d then AgentsOf(reverse, d) + {a} else AgentsOf(reverse, y)
  {
  }

  lemma PutListed(primary: Primary, grants: Grants, g: Grant, out: seq<Grant>)
    requires PrimaryRight(primary, grants)
    requires forall x :: x in out <==> x == g || (x in ListOf(primary, g.agent, g.domain) && x.kind != g.kind)
    requires UniqueKinds(out)
    ensures PrimaryRight(WithList(primary, g.agent, g.domain, out), Apply(grants, Put(g)))
  {
    var p, m := WithList(primary, g.agent, g.domain, out), Apply(grants, Put(g));
    forall a, d ensures ListRight(ListOf(p, a, d), m, a, d) {
      assert ListRight(ListOf(primary, a, d), grants, a, d);
      WithListLists(primary, g.agent, g.domain, out, a, d);
      hide WithList;
      if a == g.agent && d == g.domain {
        ListPut(ListOf(primary, a, d), grants, g, out);
      } else {
        ListElsewhere(ListOf(primary, a, d), grants, g, a, d);
      }
    }
  }

  lemma ListElsewhere(list: seq<Grant>, grants: Grants, g: Grant, a: string, d: string)
    requires ListRight(list, grants, a, d) && !(a == g.agent && d == g.domain)
    ensures ListRight(list, Apply(grants, Put(g)), a, d)
  {
  }

  lemma PutReversed(primary: Primary, reverse: Reverse, a: string, d: string, out: seq<Grant>)
    requires ReverseRight(primary, reverse) && out != []
    ensures ReverseRight(WithList(primary, a, d, out), WithAgent(reverse, a, d))
  {
    var p, r := WithList(primary, a, d, out), WithAgent(reverse, a, d);
    hide WithList, WithAgent, ListOf, AgentsOf;
    forall x, y ensures x in AgentsOf(r, y) <==> ListOf(p, x, y) != [] {
      assert x in AgentsOf(reverse, y) <==> ListOf(primary, x, y) != [];
      WithListLists(primary, a, d, out, x, y);
      WithAgentSets(reverse, a, d, y);
    }
  }

  lemma PutTidy(primary: Primary, reverse: Reverse, a: string, d: string, out: seq<Grant>)
    requires Tidy(primary, reverse) && out != []
    ensures Tidy(WithList(primary, a, d, out), WithAgent(reverse, a, d))
  {
    var p, r := WithList(primary, a, d, out), WithAgent(reverse, a, d);
    forall x <- p ensures p[x] != map[] {
      if x == a {
        assert d in p[a];
      }
    }
    forall y <- r ensures r[y] != {} {
      if y == d {
        assert a in r[d];
      }
    }
  }

  lemma PutRight(primary: Primary, reverse: Reverse, grants: Grants, g: Grant, out: seq<Grant>)
    requires Right(primary, reverse, grants)
    requires forall x :: x in out <==> x == g || (x in ListOf(primary, g.agent, g.domain) && x.kind != g.kind)
    requires UniqueKinds(out) && out != []
    ensures Right(WithList(primary, g.agent, g.domain, out), WithAgent(reverse, g.agent, g.domain), Apply(grants, Put(g)))
  {
    PutListed(primary, grants, g, out);
    PutReversed(primary, reverse, g.agent, g.domain, out);
    PutTidy(primary, reverse, g.agent, g.domain, out);
    hide PrimaryRight, ReverseRight, Tidy, UniqueKinds, ListOf, Apply;
  }

  lemma ListPut(list: seq<Grant>, grants: Grants, g: Grant, out: seq<Grant>)
    requires ListRight(list, grants, g.agent, g.domain)
    requires forall x :: x in out <==> x == g || (x in list && x.kind != g.kind)
    requires UniqueKinds(out)
    ensures ListRight(out, Apply(grants, Put(g)), g.agent, g.domain)
  {
    forall i | 0 <= i < |out| ensures KeyOf(out[i]) == Key(g.agent, g.domain, out[i].kind) {
      assert out[i] in out;
    }
    forall i | 0 <= i < |out| ensures out[i] == g || (out[i].kind != g.kind && KeyOf(out[i]) in grants && grants[KeyOf(out[i])] == out[i]) {
      assert out[i] in out;
    }
  }

  lemma DropPairRight(primary: Primary, reverse: Reverse, grants: Grants, a: string, d: string)
    requires Right(primary, reverse, grants)
    ensures Right(WithoutPair(primary, a, d), WithoutAgent(reverse, a, d), Apply(grants, DropPair(a, d)))
  {
    var p, r, m := WithoutPair(primary, a, d), WithoutAgent(reverse, a, d), Apply(grants, DropPair(a, d));
    assert PrimaryRight(p, m) by {
      hide WithoutPair, WithoutAgent, ReverseRight, Tidy;
      forall x, y ensures ListRight(ListOf(p, x, y), m, x, y) {
        assert ListRight(ListOf(primary, x, y), grants, x, y);
        WithoutPairLists(primary, a, d, x, y);
      }
    }
    hide PrimaryRight, ListRight;
    PairReversed(primary, reverse, a, d);
  }

  lemma PairReversed(primary: Primary, reverse: Reverse, a: string, d: string)
    requires ReverseRight(primary, reverse)
    ensures ReverseRight(WithoutPair(primary, a, d), WithoutAgent(reverse, a, d))
  {
    var p, r := WithoutPair(primary, a, d), WithoutAgent(reverse, a, d);
    hide WithoutPair, WithoutAgent, ListOf, AgentsOf;
    forall x, y ensures x in AgentsOf(r, y) <==> ListOf(p, x, y) != [] {
      assert x in AgentsOf(reverse, y) <==> ListOf(primary, x, y) != [];
      WithoutPairLists(primary, a, d, x, y);
      WithoutAgentSets(reverse, a, d, y);
    }
  }

  lemma DropAgentListed(primary: Primary, grants: Grants, a: string)
    requires PrimaryRight(primary, grants)
    ensures PrimaryRight(primary - {a}, Apply(grants, DropAgent(a)))
  {
    var p, m := primary - {a}, Apply(grants, DropAgent(a));
    forall x, y ensures ListRight(ListOf(p, x, y), m, x, y) {
      assert ListRight(ListOf(primary, x, y), grants, x, y);
      assert ListOf(p, x, y) == if x == a then [] else ListOf(primary, x, y);
    }
  }

  lemma DropAgentReversed(primary: Primary, reverse: Reverse, a: string, r: Reverse)
    requires ReverseRight(primary, reverse)
    requires forall d :: AgentsOf(r, d) == AgentsOf(reverse, d) - {a}
    ensures ReverseRight(primary - {a}, r)
  {
    hide AgentsOf;
    forall x, y ensures x in AgentsOf(r, y) <==> ListOf(primary - {a}, x, y) != [] {
      assert x in AgentsOf(reverse, y) <==> ListOf(primary, x, y) != [];
    }
  }

  lemma DropAgentRight(primary: Primary, reverse: Reverse, grants: Grants, a: string, r: Reverse)
    requires Right(primary, reverse, grants)
    requires forall d <- r :: r[d] != {}
    requires forall d :: AgentsOf(r, d) == AgentsOf(reverse, d) - {a}
    ensures Right(primary - {a}, r, Apply(grants, DropAgent(a)))
  {
    DropAgentListed(primary, grants, a);
    DropAgentReversed(primary, reverse, a, r);
    hide PrimaryRight, ReverseRight, Apply, AgentsOf;
  }

  /** The reverse index without the agent under the domains `gone`, and nothing empty left. */
  ghost predicate LostOver(was: Reverse, reverse: Reverse, a: string, gone: set<string>) {
    && (forall d <- reverse :: reverse[d] != {})
    && (forall d :: AgentsOf(reverse, d) == if d in gone then AgentsOf(was, d) - {a} else AgentsOf(was, d))
  }

  lemma LoseOne(was: Reverse, reverse: Reverse, a: string, gone: set<string>, d: string)
    requires LostOver(was, reverse, a, gone)
    ensures LostOver(was, WithoutAgent(reverse, a, d), a, gone + {d})
  {
    forall e ensures AgentsOf(WithoutAgent(reverse, a, d), e)
                  == if e in gone + {d} then AgentsOf(was, e) - {a} else AgentsOf(was, e)
    {
      WithoutAgentSets(reverse, a, d, e);
      assert AgentsOf(reverse, e) == if e in gone then AgentsOf(was, e) - {a} else AgentsOf(was, e);
      hide WithoutAgent, AgentsOf;
    }
  }

  class Index {
    var primary: Primary
    var reverse: Reverse
    ghost var grants: Grants

    ghost predicate Valid()
      reads this
    {
      Right(primary, reverse, grants)
    }

    constructor ()
      ensures Valid() && grants == map[]
    {
      primary, reverse, grants := map[], map[], map[];
    }

    method Add(g: Grant)
      requires Valid()
      modifies this
      ensures Valid() && grants == Apply(old(grants), Put(g))
      ensures grants == old(grants)[Key(g.agent, g.domain, g.kind) := g]
    {
      var list := ListOf(primary, g.agent, g.domain);
      assert ListRight(list, grants, g.agent, g.domain);
      var out := Replace(list, g);
      PutRight(primary, reverse, grants, g, out);
      hide Right, ListRight, UniqueKinds;
      primary := WithList(primary, g.agent, g.domain, out);
      reverse := WithAgent(reverse, g.agent, g.domain);
      grants := Apply(grants, Put(g));
    }

    method RemoveEntry(agent: string, domain: string)
      requires Valid()
      modifies this
      ensures Valid() && grants == Apply(old(grants), DropPair(agent, domain))
      ensures forall k :: k in grants <==> k in old(grants) && (k.agent != agent || k.domain != domain)
      ensures forall k <- grants :: grants[k] == old(grants)[k]
    {
      DropPairRight(primary, reverse, grants, agent, domain);
      hide Right;
      if agent in primary {
        var byDomain := primary[agent] - {domain};
        primary := if |byDomain| == 0 then primary - {agent} else primary[agent := byDomain];
      }
      if domain in reverse {
        var agents := reverse[domain] - {agent};
        reverse := if |agents| == 0 then reverse - {domain} else reverse[domain := agents];
      }
      grants := Apply(grants, DropPair(agent, domain));
    }

    method RemoveAgent(agent: string)
      requires Valid()
      modifies this
      ensures Valid() && grants == Apply(old(grants), DropAgent(agent))
      ensures forall k :: k in grants <==> k in old(grants) && k.agent != agent
      ensures forall k <- grants :: grants[k] == old(grants)[k]
    {
      if agent in primary {
        LoseAgent(agent);
      }
      forall d ensures AgentsOf(reverse, d) == AgentsOf(old(reverse), d) - {agent} {
        assert agent in AgentsOf(old(reverse), d) <==> ListOf(old(primary), agent, d) != [];
      }
      primary := primary - {agent};
      DropAgentRight(old(primary), old(reverse), grants, agent, reverse);
      grants := Apply(grants, DropAgent(agent));
    }

    /** Takes the agent out of the reverse index under each of its domains. */
    method LoseAgent(agent: string)
      requires agent in primary && forall d <- reverse :: reverse[d] != {}
      modifies this`reverse
      ensures LostOver(old(reverse), reverse, agent, primary[agent].Keys)
    {
      var domains := primary[agent].Keys;
      var todo := domains;
      while todo != {}
        invariant todo <= domains && LostOver(old(reverse), reverse, agent, domains - todo)
        decreases todo
      {
        var domain :| domain in todo;
        LoseOne(old(reverse), reverse, agent, domains - todo, domain);
        if domain in reverse {
          var agents := reverse[domain] - {agent};
          reverse := if |agents| == 0 then reverse - {domain} else reverse[domain := agents];
        }
        assert domains - (todo - {domain}) == (domains - todo) + {domain};
        todo := todo - {domain};
      }
    }

    method Clear()
      modifies this
      ensures Valid() && grants == map[]
    {
      primary, reverse, grants := map[], map[], map[];
    }

    method Check(agent: string, domain: string) returns (authorized: bool)
      requires Valid()
      ensures authorized <==> exists k :: k in grants && k.agent == agent && k.domain == domain
    {
      Listed(primary, grants, agent, domain);
      if agent !in primary {
        return false;
      }
      authorized := domain in primary[agent] && |primary[agent][domain]| > 0;
    }

    method GetAuthorizedAgents(domain: string) returns (agents: seq<string>)
      requires Valid()
      ensures forall i, j :: 0 <= i < j < |agents| ==> agents[i] != agents[j]
      ensures forall a :: a in agents <==> exists k :: k in grants && k.agent == a && k.domain == domain
    {
      agents := ListSet(AgentsOf(reverse, domain));
      forall a ensures a in agents <==> exists k :: k in grants && k.agent == a && k.domain == domain {
        assert a in AgentsOf(reverse, domain) <==> ListOf(primary, a, domain) != [];
        Listed(primary, grants, a, domain);
      }
    }

    /** The number of grants, summed over the lists. */
    method Count() returns (n: nat)
      requires Valid()
      ensures n == |grants|
    {
      n := 0;
      var todo := primary.Keys;
      assert OfAgents(grants, primary.Keys - todo) == {};
      while todo != {}
        invariant todo <= primary.Keys
        invariant n == |OfAgents(grants, primary.Keys - todo)|
        decreases todo
      {
        var a :| a in todo;
        var here := CountAgent(a);
        var done := primary.Keys - todo;
        assert OfAgents(grants, done + {a}) == OfAgents(grants, done) + OfAgentDomains(grants, a, primary[a].Keys) by {
          AllDomains(primary, grants, a);
        }
        assert primary.Keys - (todo - {a}) == done + {a};
        n, todo := n + here, todo - {a};
      }
      assert primary.Keys - todo == primary.Keys;
      AllAgents(primary, grants);
    }

    method CountAgent(a: string) returns (n: nat)
      requires Valid() && a in primary
      ensures n == |OfAgentDomains(grants, a, primary[a].Keys)|
    {
      n := 0;
      var todo := primary[a].Keys;
      assert OfAgentDomains(grants, a, primary[a].Keys - todo) == {};
      while todo != {}
        invariant todo <= primary[a].Keys
        invariant n == |OfAgentDomains(grants, a, primary[a].Keys - todo)|
        decreases todo
      {
        var d :| d in todo;
        var done := primary[a].Keys - todo;
        assert ListRight(ListOf(primary, a, d), grants, a, d);
        PairSize(primary[a][d], grants, a, d);
        OneMoreDomain(grants, a, done, d);
        assert primary[a].Keys - (todo - {d}) == done + {d};
        n, todo := n + |primary[a][d]|, todo - {d};
      }
      assert primary[a].Keys - todo == primary[a].Keys;
    }
  }

  ghost function OfAgents(grants: Grants, agents: set<string>): set<Key> {
    set k | k in grants && k.agent in agents
  }

  ghost function OfAgentDomains(grants: Grants, a: string, domains: set<string>): set<Key> {
    set k | k in grants && k.agent == a && k.domain in domains
  }

  lemma OneMoreDomain(grants: Grants, a: string, done: set<string>, d: string)
    requires d !in done
    ensures |OfAgentDomains(grants, a, done + {d})| == |OfAgentDomains(grants, a, done)| + |OfAgentDomains(grants, a, {d})|
  {
    assert OfAgentDomains(grants, a, done + {d}) == OfAgentDomains(grants, a, done) + OfAgentDomains(grants, a, {d});
  }

  lemma AllDomains(primary: Primary, grants: Grants, a: string)
    requires PrimaryRight(primary, grants) && a in primary
    ensures OfAgentDomains(grants, a, primary[a].Keys) == OfAgents(grants, {a})
  {
    forall k <- grants | k.agent == a ensures k.domain in primary[a] {
      assert ListRight(ListOf(primary, a, k.domain), grants, a, k.domain);
    }
  }

  lemma AllAgents(primary: Primary, grants: Grants)
    requires PrimaryRight(primary, grants)
    ensures |OfAgents(grants, primary.Keys)| == |grants|
  {
    forall k <- grants ensures k.agent in primary {
      assert ListRight(ListOf(primary, k.agent, k.domain), grants, k.agent, k.domain);
    }
    assert OfAgents(grants, primary.Keys) == grants.Keys;
  }

  /** A list is as long as its pair has grants. */
  lemma PairSize(list: seq<Grant>, grants: Grants, a: string, d: string)
    requires ListRight(list, grants, a, d)
    ensures |OfAgentDomains(grants, a, {d})| == |list|
  {
    KeysDistinct(list, a, d, |list|);
    var keys := KeysUpTo(list, |list|);
    forall k ensures k in OfAgentDomains(grants, a, {d}) <==> k in keys {
      InKeys(list, |list|, k);
      if k in grants && k.agent == a && k.domain == d {
        var i :| 0 <= i < |list| && list[i] == grants[k];
      }
    }
    assert OfAgentDomains(grants, a, {d}) == keys;
  }

  ghost function KeysUpTo(list: seq<Grant>, n: nat): set<Key>
    requires n <= |list|
  {
    if n == 0 then {} else KeysUpTo(list, n - 1) + {KeyOf(list[n - 1])}
  }

  lemma {:induction false} InKeys(list: seq<Grant>, n: nat, k: Key)
    requires n <= |list|
    ensures k in KeysUpTo(list, n) <==> exists i :: 0 <= i < n && KeyOf(list[i]) == k
  {
    if n > 0 {
      InKeys(list, n - 1, k);
    }
  }

  lemma {:induction false} KeysDistinct(list: seq<Grant>, a: string, d: string, n: nat)
    requires n <= |list| && UniqueKinds(list)
    requires forall i :: 0 <= i < |list| ==> KeyOf(list[i]) == Key(a, d, list[i].kind)
    ensures |KeysUpTo(list, n)| == n
  {
    if n > 0 {
      KeysDistinct(list, a, d, n - 1);
      InKeys(list, n - 1, KeyOf(list[n - 1]));
    }
  }

  method ListSet(s: set<string>) returns (list: seq<string>)
    ensures forall i, j :: 0 <= i < j < |list| ==> list[i] != list[j]
    ensures forall x :: x in list <==> x in s
  {
    list := [];
    var todo := s;
    while todo != {}
      invariant todo <= s
      invariant forall i, j :: 0 <= i < j < |list| ==> list[i] != list[j]
      invariant forall x :: x in list <==> x in s && x !in todo
      decreases todo
    {
      var x :| x in todo;
      list, todo := list + [x], todo - {x};
    }
  }

  /** An agent has a grant for a domain exactly when its list there is not empty. */
  lemma Listed(primary: Primary, grants: Grants, a: string, d: string)
    requires PrimaryRight(primary, grants)
    ensures ListOf(primary, a, d) != [] <==> exists k :: k in grants && k.agent == a && k.domain == d
  {
    var list := ListOf(primary, a, d);
    assert ListRight(list, grants, a, d);
    if list != [] {
      assert KeyOf(list[0]) in grants;
    }
  }
}
