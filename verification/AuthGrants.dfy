/**
 Authorization grants as one map, the specification of both the in-memory index and the store: a grant is
 identified by agent, publisher domain and authorization type.
 */
module AuthGrants {

  /** `detail` stands for what a grant carries besides its identity. */
  datatype Grant = Grant(agent: string, domain: string, kind: string, detail: string)

  datatype Key = Key(agent: string, domain: string, kind: string)

  type Grants = map<Key, Grant>

  function KeyOf(g: Grant): Key { Key(g.agent, g.domain, g.kind) }

  datatype Change = Put(g: Grant) | DropPair(agent: string, domain: string) | DropAgent(agent: string) | Clear

  function Apply(m: Grants, c: Change): Grants {
    match c
    case Put(g) => m[KeyOf(g) := g]
    case DropPair(a, d) => map k | k in m && !(k.agent == a && k.domain == d) :: m[k]
    case DropAgent(a) => map k | k in m && k.agent != a :: m[k]
    case Clear => map[]
  }

  /** What stores accept as a publisher domain: no separator, no blank, no control character. */
  predicate ValidDomain(d: string) {
    d != "" && forall i :: 0 <= i < |d| ==> d[i] != '|' && d[i] > ' ' && d[i] != '\U{7F}'
  }

  /** A store refuses a change that names a domain it could not encode. */
  predicate Accepts(c: Change) {
    match c
    case Put(g) => ValidDomain(g.domain)
    case DropPair(_, d) => ValidDomain(d)
    case _ => true
  }

  /** The grants a store can hold. */
  function Storable(m: Grants): Grants { map k | k in m && ValidDomain(k.domain) :: m[k] }

  /** Applying to the store every change it accepts keeps it equal to the storable part of memory. */
  lemma StoreFollows(m: Grants, c: Change)
    ensures Storable(Apply(m, c)) == if Accepts(c) then Apply(Storable(m), c) else Storable(m)
  {
  }
}
