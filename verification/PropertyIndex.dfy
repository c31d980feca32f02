/**
 The registry's property index: records by id, with secondary indexes by registry id and by domain.
 */
module PropertyIndex {
  import opened Text

  datatype Property = Property(id: string, rid: string, domain: string, record: string)

  /** The three indexes, with the record itself in place of a pointer to it. */
  datatype Indexes = Indexes(byID: map<string, Property>, byRID: map<string, Property>, byDomain: map<string, string>)

  const NOTHING := Indexes(map[], map[], map[])

  function WithoutSecondary(x: Indexes, id: string): Indexes {
    if id !in x.byID then x
    else x.(byRID := x.byRID - {x.byID[id].rid},
            byDomain := if x.byID[id].domain != "" then x.byDomain - {x.byID[id].domain} else x.byDomain)
  }

  function Put(x: Indexes, p: Property): Indexes {
    var y := WithoutSecondary(x, p.id);
    Indexes(y.byID[p.id := p],
            if p.rid != "" then y.byRID[p.rid := p] else y.byRID,
            if p.domain != "" then y.byDomain[p.domain := p.id] else y.byDomain)
  }

  function Remove(x: Indexes, id: string): Indexes {
    var y := WithoutSecondary(x, id);
    y.(byID := y.byID - {id})
  }

  /** Other records stay, and so does every index entry but those of the record put and of the one it replaces. */
  lemma PutExactly(x: Indexes, p: Property)
    ensures var y := Put(x, p);
            && y.byID == x.byID[p.id := p]
            && (p.rid != "" ==> p.rid in y.byRID && y.byRID[p.rid] == p)
            && (p.domain != "" ==> p.domain in y.byDomain && y.byDomain[p.domain] == p.id)
            && (forall r | r != p.rid :: r in y.byRID <==> r in x.byRID && !(p.id in x.byID && r == x.byID[p.id].rid))
            && (forall r <- y.byRID :: r != p.rid ==> y.byRID[r] == x.byRID[r])
            && (forall d | d != p.domain && d != "" :: d in y.byDomain <==> d in x.byDomain && !(p.id in x.byID && d == x.byID[p.id].domain))
            && (forall d <- y.byDomain :: d != p.domain ==> y.byDomain[d] == x.byDomain[d])
  {
  }

  lemma RemoveExactly(x: Indexes, id: string)
    ensures var y := Remove(x, id);
            && y.byID == x.byID - {id}
            && (forall r :: r in y.byRID <==> r in x.byRID && !(id in x.byID && r == x.byID[id].rid))
            && (forall r <- y.byRID :: y.byRID[r] == x.byRID[r])
            && (forall d | d != "" :: d in y.byDomain <==> d in x.byDomain && !(id in x.byID && d == x.byID[id].domain))
            && (forall d <- y.byDomain :: y.byDomain[d] == x.byDomain[d])
  {
    hide Put;
  }

  /** Whatever a secondary index names is live and has that registry id or domain. */
  ghost predicate Sound(x: Indexes) {
    && (forall id <- x.byID :: x.byID[id].id == id)
    && (forall r <- x.byRID :: r != "" && x.byRID[r].rid == r && x.byRID[r].id in x.byID && x.byID[x.byRID[r].id] == x.byRID[r])
    && (forall d <- x.byDomain :: d != "" && x.byDomain[d] in x.byID && x.byID[x.byDomain[d]].domain == d)
  }

  /** The secondary indexes name this live property. */
  ghost predicate Named(x: Indexes, id: string)
    requires id in x.byID
  {
    var p := x.byID[id];
    && (p.rid != "" ==> p.rid in x.byRID && x.byRID[p.rid] == p)
    && (p.domain != "" ==> p.domain in x.byDomain && x.byDomain[p.domain] == id)
  }

  ghost predicate Complete(x: Indexes) { forall id <- x.byID :: Named(x, id) }

  /** No two live properties share a registry id or a domain. */
  ghost predicate Unique(x: Indexes) {
    forall i <- x.byID, j <- x.byID :: i != j ==>
      (x.byID[i].rid == "" || x.byID[i].rid != x.byID[j].rid) && (x.byID[i].domain == "" || x.byID[i].domain != x.byID[j].domain)
  }

  lemma PutSound(x: Indexes, p: Property)
    requires Sound(x)
    ensures Sound(Put(x, p))
  {
  }

  lemma RemoveSound(x: Indexes, id: string)
    requires Sound(x)
    ensures Sound(Remove(x, id))
  {
  }

  lemma CompleteIsUnique(x: Indexes)
    requires Sound(x) && Complete(x)
    ensures Unique(x)
  {
    forall i <- x.byID, j <- x.byID | i != j
      ensures (x.byID[i].rid == "" || x.byID[i].rid != x.byID[j].rid) && (x.byID[i].domain == "" || x.byID[i].domain != x.byID[j].domain)
    {
      assert Named(x, i) && Named(x, j);
    }
  }

  lemma RemoveComplete(x: Indexes, id: string)
    requires Sound(x) && Complete(x)
    ensures Complete(Remove(x, id))
  {
    var y := Remove(x, id);
    CompleteIsUnique(x);
    forall i <- y.byID ensures Named(y, i) {
      assert Named(x, i);
    }
  }

  /** On complete indexes a put leaves complete ones exactly when it leaves no two properties alike. */
  lemma PutCompleteExactly(x: Indexes, p: Property)
    requires Sound(x) && Complete(x)
    ensures Complete(Put(x, p)) <==> Unique(Put(x, p))
  {
    var y := Put(x, p);
    PutSound(x, p);
    if Complete(y) {
      CompleteIsUnique(y);
    }
    if Unique(y) {
      CompleteIsUnique(x);
      forall i <- y.byID ensures Named(y, i) {
        if i != p.id {
          assert Named(x, i);
        }
      }
    }
  }

  // ---- histories ----

  datatype Change = PutOne(p: Property) | RemoveOne(id: string) | ClearAll

  function Apply(x: Indexes, c: Change): Indexes {
    match c
    case PutOne(p) => Put(x, p)
    case RemoveOne(id) => Remove(x, id)
    case ClearAll => NOTHING
  }

  function After(changes: seq<Change>): Indexes {
    if changes == [] then NOTHING else Apply(After(changes[..|changes| - 1]), changes[|changes| - 1])
  }

  /** After every history the secondary indexes are sound. */
  lemma {:induction false} AlwaysSound(changes: seq<Change>)
    ensures Sound(After(changes))
  {
    if changes != [] {
      AlwaysSound(changes[..|changes| - 1]);
      var x := After(changes[..|changes| - 1]);
      match changes[|changes| - 1]
      case PutOne(p) => PutSound(x, p);
      case RemoveOne(id) => RemoveSound(x, id);
      case ClearAll =>
    }
  }

  ghost predicate CompleteThroughout(changes: seq<Change>) {
    forall n :: 0 <= n <= |changes| ==> Complete(After(changes[..n]))
  }

  ghost predicate UniqueThroughout(changes: seq<Change>) {
    forall n :: 0 <= n <= |changes| ==> Unique(After(changes[..n]))
  }

  /** The indexes are complete all along exactly when live properties were distinct all along. */
  lemma {:induction false} CompleteExactlyWhileUnique(changes: seq<Change>)
    ensures CompleteThroughout(changes) <==> UniqueThroughout(changes)
  {
    forall n: nat | n <= |changes| ensures CompleteThroughout(changes) ==> Unique(After(changes[..n])) {
      if CompleteThroughout(changes) {
        AlwaysSound(changes[..n]);
        CompleteIsUnique(After(changes[..n]));
      }
    }
    if UniqueThroughout(changes) {
      forall n: nat | n <= |changes| ensures Complete(After(changes[..n])) {
        CompleteUpTo(changes, n);
      }
    }
  }

  lemma {:induction false} CompleteUpTo(changes: seq<Change>, n: nat)
    requires UniqueThroughout(changes) && n <= |changes|
    ensures Complete(After(changes[..n]))
  {
    if n > 0 {
      CompleteUpTo(changes, n - 1);
      assert changes[..n][..n - 1] == changes[..n - 1];
      var x := After(changes[..n - 1]);
      AlwaysSound(changes[..n - 1]);
      assert Unique(After(changes[..n]));
      match changes[n - 1]
      case PutOne(p) => PutCompleteExactly(x, p);
      case RemoveOne(id) => RemoveComplete(x, id);
      case ClearAll =>
    }
  }

  /** Distinct again is not enough: what a clash took out of the indexes stays out. */
  lemma ClashLeavesAGap(a: Property, b: Property)
    requires a.id != b.id && a.rid == b.rid != ""
    ensures var x := Remove(Put(Put(NOTHING, a), b), b.id); Unique(x) && a.id in x.byID && !Complete(x)
  {
    var x := Remove(Put(Put(NOTHING, a), b), b.id);
    assert x.byID == map[a.id := a];
    assert a.rid !in x.byRID;
    assert !Named(x, a.id);
  }

  // ---- the index ----

  /** A stored record; the indexes hold references to it. */
  class Record {
    const p: Property

    constructor (p: Property)
      ensures this.p == p
    {
      this.p := p;
    }
  }

  ghost function Contents(m: map<string, Record>): map<string, Property> { map k | k in m :: m[k].p }

  lemma ContentsFollow(m: map<string, Record>, k: string, r: Record)
    ensures Contents(m[k := r]) == Contents(m)[k := r.p]
  {
  }

  lemma ContentsWithout(m: map<string, Record>, k: string)
    ensures Contents(m - {k}) == Contents(m) - {k}
  {
  }

  /** The record under a registry id has that registry id and is the very one under its own id. */
  ghost predicate Linked(byID: map<string, Record>, byRID: map<string, Record>) {
    forall r <- byRID :: byRID[r].p.rid == r && byRID[r].p.id in byID && byID[byRID[r].p.id] == byRID[r]
  }

  /** Without the record of an id, the registry ids name only other records. */
  lemma DetachLinked(byID: map<string, Record>, byRID: map<string, Record>, id: string)
    requires Linked(byID, byRID)
    ensures var left := if id in byID then byRID - {byID[id].p.rid} else byRID;
            Linked(byID, left) && forall r <- left :: left[r].p.id != id
  {
  }

  lemma DropLinked(byID: map<string, Record>, byRID: map<string, Record>, id: string)
    requires Linked(byID, byRID) && forall r <- byRID :: byRID[r].p.id != id
    ensures Linked(byID - {id}, byRID)
  {
  }

  lemma AttachLinked(byID: map<string, Record>, byRID: map<string, Record>, cp: Record)
    requires Linked(byID, byRID) && forall r <- byRID :: byRID[r].p.id != cp.p.id
    ensures Linked(byID[cp.p.id := cp], if cp.p.rid != "" then byRID[cp.p.rid := cp] else byRID)
  {
  }

  class Index {
    var byID: map<string, Record>
    var byRID: map<string, Record>
    var byDomain: map<string, string>

    ghost function Value(): Indexes
      reads this
    {
      Indexes(Contents(byID), Contents(byRID), byDomain)
    }

    /** Sound, and the record under a registry id is the very one under its id. */
    ghost predicate Valid()
      reads this
    {
      Sound(Value()) && Linked(byID, byRID)
    }

    constructor ()
      ensures Valid() && Value() == NOTHING
    {
      byID, byRID, byDomain := map[], map[], map[];
    }

    /** Takes the record of an id out of the secondary indexes. */
    method Detach(id: string)
      requires Valid()
      modifies this`byRID, this`byDomain
      ensures Value() == WithoutSecondary(old(Value()), id)
      ensures byRID == if id in byID then old(byRID) - {byID[id].p.rid} else old(byRID)
    {
      hide Sound;
      if id in byID {
        var existing := byID[id].p;
        ContentsWithout(byRID, existing.rid);
        byRID := byRID - {existing.rid};
        if existing.domain != "" {
          byDomain := byDomain - {existing.domain};
        }
      }
    }

    method Add(p: Property)
      requires Valid()
      modifies this
      ensures Valid() && Value() == Put(old(Value()), p)
      // the record is found under its id, and under its registry id and its domain if it has them
      ensures p.id in byID && byID[p.id].p == p
      ensures p.rid != "" ==> p.rid in byRID && byRID[p.rid].p == p
      ensures p.domain != "" ==> p.domain in byDomain && byDomain[p.domain] == p.id
    {
      PutSound(Value(), p);
      DetachLinked(byID, byRID, p.id);
      hide Sound;
      Detach(p.id);
      var cp := new Record(p);
      AttachLinked(byID, byRID, cp);
      hide Linked;
      ContentsFollow(byID, p.id, cp);
      ContentsFollow(byRID, p.rid, cp);
      byID := byID[p.id := cp];
      if p.rid != "" {
        byRID := byRID[p.rid := cp];
      }
      if p.domain != "" {
        byDomain := byDomain[p.domain := p.id];
      }
    }

    method Delete(id: string)
      requires Valid()
      modifies this
      ensures Valid() && Value() == Remove(old(Value()), id)
    {
      RemoveSound(Value(), id);
      DetachLinked(byID, byRID, id);
      hide Sound;
      Detach(id);
      DropLinked(byID, byRID, id);
      ContentsWithout(byID, id);
      hide Linked, Contents;
      byID := byID - {id};
    }

    method Clear()
      modifies this
      ensures Valid() && Value() == NOTHING
    {
      byID, byRID, byDomain := map[], map[], map[];
    }

    method LookupByRID(rid: string) returns (found: Option<Property>)
      requires Valid()
      ensures found.Some? ==> found.value.rid == rid && found.value.id in byID && byID[found.value.id].p == found.value
      ensures found.None? && Complete(Value()) && rid != "" ==> forall id <- byID :: byID[id].p.rid != rid
    {
      if rid in byRID {
        return Some(byRID[rid].p);
      }
      forall id <- byID ensures Complete(Value()) && rid != "" ==> byID[id].p.rid != rid {
        assert Complete(Value()) ==> Named(Value(), id);
      }
      return None;
    }

    method LookupByDomain(domain: string) returns (id: Option<string>)
      requires Valid()
      ensures id.Some? ==> id.value in byID && byID[id.value].p.domain == domain
      ensures id.None? && Complete(Value()) && domain != "" ==> forall i <- byID :: byID[i].p.domain != domain
    {
      if domain in byDomain {
        return Some(byDomain[domain]);
      }
      forall i <- byID ensures Complete(Value()) && domain != "" ==> byID[i].p.domain != domain {
        assert Complete(Value()) ==> Named(Value(), i);
      }
      return None;
    }

    /** Loads records one after the other over what is there. */
    method Hydrate(props: seq<Property>)
      requires Valid()
      modifies this
      ensures Valid() && Value() == Loaded(old(Value()), props)
    {
      for i := 0 to |props|
        invariant Valid() && Value() == Loaded(old(Value()), props[..i])
      {
        assert props[..i + 1][..i] == props[..i];
        Add(props[i]);
      }
      assert props[..|props|] == props;
    }
  }

  function Loaded(x: Indexes, props: seq<Property>): Indexes {
    if props == [] then x else Put(Loaded(x, props[..|props| - 1]), props[|props| - 1])
  }
}
