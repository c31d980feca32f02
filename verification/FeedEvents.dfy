/**
 The registry feed: what each kind of event writes and deletes, in memory and in the store behind it.
 */
module FeedEvents {
  import opened Text
  import opened AuthGrants

  datatype EntityKey =
    | PropertyKey(id: string)
    | AgentKey(url: string)
    | AuthKey(agent: string, domain: string, kind: string)

  /** The three replicated namespaces as one map; a value stands for the whole record. */
  type Db = map<EntityKey, string>

  datatype Property = Property(id: string, rid: string, record: string)

  datatype Profile = Profile(url: string, record: string)

  /** An event by its type, with its payload if that could be decoded. */
  datatype Event =
    | PropertyChanged(payload: Option<Property>)
    | PropertyGone(entityID: string)
    | Granted(grant: Option<Grant>)
    | Revoked(revoke: Option<(string, string)>)
    | AgentChanged(profile: Option<Profile>)
    | AgentGone(entityID: string)
    | Unhandled

  /** One write or delete that the indexes and the store perform as a unit. */
  datatype Op =
    | Set(key: EntityKey, value: string)
    | Delete(key: EntityKey)
    | DeletePair(agent: string, domain: string)
    | DeleteGrants(agent: string)

  /** The operations of an event in order; none for an event that is dropped. */
  function Ops(e: Event): (ops: seq<Op>)
    ensures |ops| <= 2
  {
    match e
    case PropertyChanged(p) =>
      if p.None? || p.value.id == "" || p.value.rid == "" then []
      else [Set(PropertyKey(p.value.id), p.value.record)]
    case PropertyGone(id) => [Delete(PropertyKey(id))]
    case Granted(g) =>
      if g.None? || g.value.agent == "" || g.value.domain == "" || !ValidDomain(g.value.domain) then []
      else [Set(AuthKey(g.value.agent, g.value.domain, g.value.kind), g.value.detail)]
    case Revoked(r) =>
      if r.None? || r.value.0 == "" || r.value.1 == "" || !ValidDomain(r.value.1) then []
      else [DeletePair(r.value.0, r.value.1)]
    case AgentChanged(p) =>
      if p.None? || p.value.url == "" then []
      else [Set(AgentKey(p.value.url), p.value.record)]
    case AgentGone(url) => [Delete(AgentKey(url)), DeleteGrants(url)]
    case Unhandled => []
  }

  function Get(db: Db, k: EntityKey): Option<string> { if k in db then Some(db[k]) else None }

  predicate Covers(op: Op, k: EntityKey) {
    match op
    case Set(key, _) => k == key
    case Delete(key) => k == key
    case DeletePair(a, d) => k.AuthKey? && k.agent == a && k.domain == d
    case DeleteGrants(a) => k.AuthKey? && k.agent == a
  }

  function ApplyOp(db: Db, op: Op): Db {
    match op
    case Set(key, value) => db[key := value]
    case _ => map k | k in db && !Covers(op, k) :: db[k]
  }

  /** What an operation leaves under a key, whatever was there. */
  function Written(op: Op): Option<string> { if op.Set? then Some(op.value) else None }

  /** Operations are blind: what they leave does not depend on what they find. */
  lemma OpEffect(db: Db, op: Op, k: EntityKey)
    ensures Get(ApplyOp(db, op), k) == if Covers(op, k) then Written(op) else Get(db, k)
  {
  }

  function ApplyOps(db: Db, ops: seq<Op>): Db
    decreases |ops|
  {
    if ops == [] then db else ApplyOps(ApplyOp(db, ops[0]), ops[1..])
  }

  /** What an event leaves under a key, if it touches the key at all. */
  function Touch(e: Event, k: EntityKey): Option<Option<string>> {
    var ops := Ops(e);
    if |ops| > 0 && Covers(ops[0], k) then Some(Written(ops[0]))
    else if |ops| > 1 && Covers(ops[1], k) then Some(Written(ops[1]))
    else None
  }

  // ---- replaying a feed ----

  /** Where a replay starts: the data that was there, and the position of the first event. */
  datatype Origin = Origin(base: Db, at: nat)

  const NOTHING := Origin(map[], 0)

  /** The state after the events up to `n`, applied to what was there. */
  function Replay(feed: seq<Event>, o: Origin, n: nat): Db
    requires o.at <= n <= |feed|
  {
    if n == o.at then o.base else ApplyOps(Replay(feed, o, n - 1), Ops(feed[n - 1]))
  }

  /** The state after the first `n` events, applied to an empty one. */
  function Fold(feed: seq<Event>, n: nat): Db
    requires n <= |feed|
  {
    Replay(feed, NOTHING, n)
  }

  /** The same, one key at a time: the last event that touches the key decides. */
  function Value(feed: seq<Event>, o: Origin, n: nat, k: EntityKey): Option<string>
    requires o.at <= n <= |feed|
  {
    if n == o.at then Get(o.base, k)
    else match Touch(feed[n - 1], k)
      case Some(left) => left
      case None => Value(feed, o, n - 1, k)
  }

  function ValueAt(feed: seq<Event>, n: nat, k: EntityKey): Option<string>
    requires n <= |feed|
  {
    Value(feed, NOTHING, n, k)
  }

  lemma OpsEffect(db: Db, e: Event, k: EntityKey)
    ensures Get(ApplyOps(db, Ops(e)), k) == match Touch(e, k) case Some(left) => left case None => Get(db, k)
  {
    var ops := Ops(e);
    if |ops| > 0 {
      OpEffect(db, ops[0], k);
      assert ApplyOps(db, ops) == ApplyOps(ApplyOp(db, ops[0]), ops[1..]);
      if |ops| > 1 {
        OpEffect(ApplyOp(db, ops[0]), ops[1], k);
        assert ApplyOps(ApplyOp(db, ops[0]), ops[1..]) == ApplyOps(ApplyOp(ApplyOp(db, ops[0]), ops[1]), []);
      }
    }
  }

  lemma {:induction false} ReplayValue(feed: seq<Event>, o: Origin, n: nat, k: EntityKey)
    requires o.at <= n <= |feed|
    ensures Get(Replay(feed, o, n), k) == Value(feed, o, n, k)
  {
    if n > o.at {
      ReplayValue(feed, o, n - 1, k);
      OpsEffect(Replay(feed, o, n - 1), feed[n - 1], k);
    }
  }

  lemma {:induction false} ValueStays(feed: seq<Event>, more: seq<Event>, o: Origin, n: nat, k: EntityKey)
    requires o.at <= n <= |feed|
    ensures Value(feed + more, o, n, k) == Value(feed, o, n, k)
  {
    if n > o.at {
      ValueStays(feed, more, o, n - 1, k);
    }
  }

  /** Only what was there under a key matters for the key. */
  lemma {:induction false} ValueSameBase(feed: seq<Event>, o: Origin, p: Origin, n: nat, k: EntityKey)
    requires o.at == p.at <= n <= |feed| && Get(o.base, k) == Get(p.base, k)
    ensures Value(feed, o, n, k) == Value(feed, p, n, k)
  {
    if n > o.at {
      ValueSameBase(feed, o, p, n - 1, k);
    }
  }

  /** Some event from position `p` up to `n` touches the key. */
  predicate Touched(feed: seq<Event>, p: nat, n: nat, k: EntityKey)
    requires n <= |feed|
  {
    exists i :: p <= i < n && Touch(feed[i], k).Some?
  }

  /** A touched key holds what an uninterrupted fold holds, an untouched one what was there. */
  lemma {:induction false} TouchedDecides(feed: seq<Event>, o: Origin, n: nat, k: EntityKey)
    requires o.at <= n <= |feed|
    ensures Touched(feed, o.at, n, k) ==> Value(feed, o, n, k) == ValueAt(feed, n, k)
    ensures !Touched(feed, o.at, n, k) ==> Value(feed, o, n, k) == Get(o.base, k) && ValueAt(feed, n, k) == ValueAt(feed, o.at, k)
  {
    hide Touch;
    if n > o.at {
      TouchedDecides(feed, o, n - 1, k);
      assert Touched(feed, o.at, n, k) <==> Touched(feed, o.at, n - 1, k) || Touch(feed[n - 1], k).Some?;
    }
  }

  /** The replay comes out right at the key: it touches it, or what was there is what the feed had left there. */
  ghost predicate Settled(feed: seq<Event>, o: Origin, n: nat, k: EntityKey)
    requires o.at <= n <= |feed|
  {
    Touched(feed, o.at, n, k) || Get(o.base, k) == ValueAt(feed, o.at, k)
  }

  /** A replay over whatever was there gives the fold of the feed exactly when every key is settled. */
  lemma ReplayExactly(feed: seq<Event>, o: Origin, n: nat)
    requires o.at <= n <= |feed|
    ensures Replay(feed, o, n) == Fold(feed, n) <==> forall k :: Settled(feed, o, n, k)
  {
    forall k ensures Settled(feed, o, n, k) <==> Get(Replay(feed, o, n), k) == Get(Fold(feed, n), k) {
      ReplayValue(feed, o, n, k);
      ReplayValue(feed, NOTHING, n, k);
      TouchedDecides(feed, o, n, k);
    }
    hide Settled, Replay;
    if forall k :: Settled(feed, o, n, k) {
      SameDb(Replay(feed, o, n), Fold(feed, n));
    }
  }

  /** Starting over on what an earlier history left: right exactly when the new history touches all of it. */
  lemma BootstrapCleansExactly(feed: seq<Event>, left: Db, n: nat)
    requires n <= |feed|
    ensures Replay(feed, Origin(left, 0), n) == Fold(feed, n) <==> forall k <- left :: Touched(feed, 0, n, k)
  {
    var o := Origin(left, 0);
    ReplayExactly(feed, o, n);
    forall k ensures Settled(feed, o, n, k) <==> k !in left || Touched(feed, 0, n, k) {
      assert ValueAt(feed, 0, k) == None;
    }
  }

  /**
   Resuming at `p` over a store that was at `p` and has since been replayed from the beginning up to `r`: right
   at `q` exactly when every key the replay touched, and the resumption does not, has the same value at `r` and `p`.
   */
  lemma ResumeExactly(feed: seq<Event>, r: nat, p: nat, q: nat)
    requires r <= p <= q <= |feed|
    ensures Replay(feed, Origin(Replay(feed, Origin(Fold(feed, p), 0), r), p), q) == Fold(feed, q)
        <==> forall k :: Touched(feed, 0, r, k) && !Touched(feed, p, q, k) ==> ValueAt(feed, r, k) == ValueAt(feed, p, k)
  {
    var first := Origin(Fold(feed, p), 0);
    var o := Origin(Replay(feed, first, r), p);
    ReplayExactly(feed, o, q);
    forall k ensures Settled(feed, o, q, k)
        <==> (Touched(feed, 0, r, k) && !Touched(feed, p, q, k) ==> ValueAt(feed, r, k) == ValueAt(feed, p, k))
    {
      ReplayValue(feed, first, r, k);
      ReplayValue(feed, NOTHING, p, k);
      TouchedDecides(feed, first, r, k);
    }
  }

  lemma SameDb(a: Db, b: Db)
    requires forall k :: Get(a, k) == Get(b, k)
    ensures a == b
  {
    forall k <- a ensures k in b && b[k] == a[k] {
      assert Get(a, k) == Get(b, k);
    }
    forall k <- b ensures k in a {
      assert Get(a, k) == Get(b, k);
    }
  }

  // ---- applying events while the store may fail ----

  /** Memory and store, and whether something could not be persisted. */
  datatype Both = Both(mem: Db, store: Db, failed: bool)

  /** Whether the first and the second store operation of an event succeed. */
  datatype Persists = Persists(first: bool, second: bool)

  /** One operation: memory changes whatever the store says. */
  function Dual(b: Both, op: Op, ok: bool): Both {
    Both(ApplyOp(b.mem, op), if ok then ApplyOp(b.store, op) else b.store, b.failed || !ok)
  }

  /** One event: after an operation that could not be persisted the rest of the event is skipped. */
  function ApplyEvent(b: Both, e: Event, oks: Persists): Both {
    var ops := Ops(e);
    if |ops| == 0 then b
    else if |ops| == 1 || !oks.first then Dual(b, ops[0], oks.first)
    else Dual(Dual(b, ops[0], true), ops[1], oks.second)
  }

  lemma EventEffect(b: Both, e: Event, oks: Persists, k: EntityKey)
    ensures var c := ApplyEvent(b, e, oks);
            && (b.failed ==> c.failed)
            && (Get(c.mem, k) == Get(b.mem, k) || Touch(e, k) == Some(Get(c.mem, k)))
            && (Get(c.store, k) == Get(b.store, k) || Touch(e, k) == Some(Get(c.store, k)))
            && (!c.failed ==> Get(c.mem, k) == (match Touch(e, k) case Some(left) => left case None => Get(b.mem, k))
                              && Get(c.store, k) == (match Touch(e, k) case Some(left) => left case None => Get(b.store, k)))
  {
    var ops := Ops(e);
    if |ops| > 0 {
      OpEffect(b.mem, ops[0], k);
      OpEffect(b.store, ops[0], k);
      if |ops| > 1 {
        OpEffect(ApplyOp(b.mem, ops[0]), ops[1], k);
        OpEffect(ApplyOp(b.store, ops[0]), ops[1], k);
      }
    }
    hide ApplyOp, Covers, Written;
  }

  /** The events of a page, from position `p` up to `q`. */
  /**
   What each event does, key by key. Memory changes whatever the store says, except that a removed agent keeps
   its grants when the removal of its profile could not be persisted; an event that is dropped changes nothing.
   */
  lemma EventExactly(b: Both, e: Event, oks: Persists, k: EntityKey)
    ensures
      var c := ApplyEvent(b, e, oks);
      match e
      case PropertyChanged(Some(p)) =>
        if p.id == "" || p.rid == "" then c == b
        else
          && Get(c.mem, k) == (if k == PropertyKey(p.id) then Some(p.record) else Get(b.mem, k))
          && Get(c.store, k) == (if k == PropertyKey(p.id) && oks.first then Some(p.record) else Get(b.store, k))
          && (c.failed <==> b.failed || !oks.first)
      case PropertyGone(id) =>
        && Get(c.mem, k) == (if k == PropertyKey(id) then None else Get(b.mem, k))
        && Get(c.store, k) == (if k == PropertyKey(id) && oks.first then None else Get(b.store, k))
        && (c.failed <==> b.failed || !oks.first)
      case Granted(Some(g)) =>
        if g.agent == "" || !ValidDomain(g.domain) then c == b
        else
          && Get(c.mem, k) == (if k == AuthKey(g.agent, g.domain, g.kind) then Some(g.detail) else Get(b.mem, k))
          && Get(c.store, k) == (if k == AuthKey(g.agent, g.domain, g.kind) && oks.first then Some(g.detail) else Get(b.store, k))
          && (c.failed <==> b.failed || !oks.first)
      case Revoked(Some((agent, domain))) =>
        if agent == "" || !ValidDomain(domain) then c == b
        else
          var hit := k.AuthKey? && k.agent == agent && k.domain == domain;
          && Get(c.mem, k) == (if hit then None else Get(b.mem, k))
          && Get(c.store, k) == (if hit && oks.first then None else Get(b.store, k))
          && (c.failed <==> b.failed || !oks.first)
      case AgentChanged(Some(p)) =>
        if p.url == "" then c == b
        else
          && Get(c.mem, k) == (if k == AgentKey(p.url) then Some(p.record) else Get(b.mem, k))
          && Get(c.store, k) == (if k == AgentKey(p.url) && oks.first then Some(p.record) else Get(b.store, k))
          && (c.failed <==> b.failed || !oks.first)
      case AgentGone(url) =>
        var grant := k.AuthKey? && k.agent == url;
        && Get(c.mem, k) == (if k == AgentKey(url) || (grant && oks.first) then None else Get(b.mem, k))
        && Get(c.store, k) == (if (k == AgentKey(url) && oks.first) || (grant && oks.first && oks.second) then None else Get(b.store, k))
        && (c.failed <==> b.failed || !oks.first || !oks.second)
      case _ => c == b
  {
    var ops := Ops(e);
    if |ops| > 0 {
      OpEffect(b.mem, ops[0], k);
      OpEffect(b.store, ops[0], k);
      if |ops| > 1 {
        OpEffect(ApplyOp(b.mem, ops[0]), ops[1], k);
        OpEffect(ApplyOp(b.store, ops[0]), ops[1], k);
      }
    }
    hide ApplyOp, ValidDomain;
  }

  function ApplyPage(b: Both, feed: seq<Event>, p: nat, q: nat, oks: seq<Persists>): Both
    requires p <= q <= |feed| && |oks| == q - p
  {
    if q == p then b else ApplyEvent(ApplyPage(b, feed, p, q - 1, oks[..q - 1 - p]), feed[q - 1], oks[q - 1 - p])
  }

  /** The key holds what the replay left there at some position between `lo` and `hi`. */
  ghost predicate Within(feed: seq<Event>, o: Origin, db: Db, k: EntityKey, lo: nat, hi: nat)
    requires o.at <= lo && hi <= |feed|
  {
    exists j: nat :: lo <= j <= hi && Get(db, k) == Value(feed, o, j, k)
  }

  function Max(a: nat, b: nat): nat { if a < b then b else a }

  /** One event keeps a key within bounds, and pushes the lower one up where it is persisted. */
  lemma EventWithin(feed: seq<Event>, o: Origin, db: Db, after: Db, k: EntityKey, i: nat, lo: nat, hi: nat)
    requires o.at <= lo <= i < |feed| && hi <= |feed| && Within(feed, o, db, k, lo, hi)
    requires Get(after, k) == Get(db, k) || Touch(feed[i], k) == Some(Get(after, k))
    ensures Within(feed, o, after, k, lo, Max(hi, i + 1))
  {
    var j: nat :| lo <= j <= hi && Get(db, k) == Value(feed, o, j, k);
    if Get(after, k) == Get(db, k) {
      assert Get(after, k) == Value(feed, o, j, k);
    } else {
      assert Get(after, k) == Value(feed, o, i + 1, k);
    }
  }

  lemma EventBeyond(feed: seq<Event>, o: Origin, db: Db, after: Db, k: EntityKey, i: nat, hi: nat)
    requires o.at <= i < |feed| && hi <= |feed| && Within(feed, o, db, k, i, hi)
    requires Get(after, k) == match Touch(feed[i], k) case Some(left) => left case None => Get(db, k)
    ensures Within(feed, o, after, k, i + 1, Max(hi, i + 1))
  {
    var j: nat :| i <= j <= hi && Get(db, k) == Value(feed, o, j, k);
    var at := if Touch(feed[i], k).Some? || j == i then i + 1 else j;
    assert Get(after, k) == Value(feed, o, at, k);
  }

  /** Memory and store are both within bounds at a key, and past `i` if all so far was persisted. */
  ghost predicate BothWithin(feed: seq<Event>, m: Origin, s: Origin, b: Both, k: EntityKey, lo: nat, i: nat, hi: nat)
    requires m.at <= lo <= i && s.at <= lo && hi <= |feed|
  {
    && Within(feed, m, b.mem, k, lo, hi) && Within(feed, s, b.store, k, lo, hi)
    && (!b.failed ==> Within(feed, m, b.mem, k, i, hi) && Within(feed, s, b.store, k, i, hi))
  }

  lemma EventBothWithin(b: Both, feed: seq<Event>, m: Origin, s: Origin, oks: Persists, k: EntityKey, lo: nat, i: nat, hi: nat)
    requires m.at <= lo <= i < |feed| && s.at <= lo && hi <= |feed| && BothWithin(feed, m, s, b, k, lo, i, hi)
    ensures BothWithin(feed, m, s, ApplyEvent(b, feed[i], oks), k, lo, i + 1, Max(hi, i + 1))
  {
    hide Within;
    var d := ApplyEvent(b, feed[i], oks);
    EventEffect(b, feed[i], oks, k);
    hide ApplyEvent, Touch, Get;
    EventWithin(feed, m, b.mem, d.mem, k, i, lo, hi);
    EventWithin(feed, s, b.store, d.store, k, i, lo, hi);
    if !d.failed {
      EventBeyond(feed, m, b.mem, d.mem, k, i, hi);
      EventBeyond(feed, s, b.store, d.store, k, i, hi);
    }
  }

  /**
   Delivering a page to a state at or beyond its start: every key stays between the start and the furthest
   position ever delivered, and beyond the end of the page if all of it was persisted.
   */
  lemma {:induction false} PageWithin(b: Both, feed: seq<Event>, m: Origin, s: Origin, p: nat, q: nat, oks: seq<Persists>,
                                      hi: nat, k: EntityKey)
    requires m.at <= p <= q <= |feed| && s.at <= p && |oks| == q - p && p <= hi <= |feed|
    requires Within(feed, m, b.mem, k, p, hi) && Within(feed, s, b.store, k, p, hi)
    ensures BothWithin(feed, m, s, ApplyPage(b, feed, p, q, oks), k, p, q, Max(hi, q))
    decreases q
  {
    hide Within;
    if q > p {
      hide BothWithin, ApplyEvent;
      PageWithin(b, feed, m, s, p, q - 1, oks[..q - 1 - p], hi, k);
      var c := ApplyPage(b, feed, p, q - 1, oks[..q - 1 - p]);
      EventBothWithin(c, feed, m, s, oks[q - 1 - p], k, p, q - 1, Max(hi, q - 1));
    }
  }

  /** What a replay holds after an event that touches the key was written by that event or a later one. */
  lemma {:induction false} LastWriter(feed: seq<Event>, o: Origin, i: nat, j: nat, k: EntityKey)
    requires o.at <= i < j <= |feed| && Touch(feed[i], k).Some?
    ensures exists w: nat :: i <= w < j && Touch(feed[w], k) == Some(Value(feed, o, j, k))
    decreases j
  {
    if Touch(feed[j - 1], k).Some? {
      assert Touch(feed[j - 1], k) == Some(Value(feed, o, j, k));
    } else {
      LastWriter(feed, o, i, j - 1, k);
    }
  }

  lemma {:induction false} PageOfSlice(b: Both, feed: seq<Event>, p: nat, q: nat, n: nat, oks: seq<Persists>)
    requires p <= p + n <= q <= |feed| && |oks| == n
    ensures ApplyPage(b, feed[p..q], 0, n, oks) == ApplyPage(b, feed, p, p + n, oks)
  {
    if n > 0 {
      PageOfSlice(b, feed, p, q, n - 1, oks[..n - 1]);
    }
  }

  // ---- the authorization part is what the authorization index does ----

  function GrantsIn(db: Db): Grants {
    map k | k in (set x | x in db && x.AuthKey? :: Key(x.agent, x.domain, x.kind))
      :: Grant(k.agent, k.domain, k.kind, db[AuthKey(k.agent, k.domain, k.kind)])
  }

  /** The change of grants that an operation makes, if any. */
  function ChangeOf(op: Op): Option<Change> {
    match op
    case Set(AuthKey(a, d, t), v) => Some(Put(Grant(a, d, t, v)))
    case DeletePair(a, d) => Some(DropPair(a, d))
    case DeleteGrants(a) => Some(DropAgent(a))
    case _ => None
  }

  lemma GrantsFollow(db: Db, op: Op)
    requires op.Delete? ==> !op.key.AuthKey?
    ensures GrantsIn(ApplyOp(db, op)) == match ChangeOf(op) case Some(c) => Apply(GrantsIn(db), c) case None => GrantsIn(db)
  {
    var after := ApplyOp(db, op);
    forall k: Key
      ensures k in GrantsIn(after) <==> AuthKey(k.agent, k.domain, k.kind) in after
      ensures k in GrantsIn(db) <==> AuthKey(k.agent, k.domain, k.kind) in db
    {
      InGrants(after, k);
      InGrants(db, k);
    }
  }

  /** What each event does to the grants, in memory and in the store. */
  lemma EventGrants(b: Both, e: Event, oks: Persists)
    ensures
      var c := ApplyEvent(b, e, oks);
      var mem, store := GrantsIn(b.mem), GrantsIn(b.store);
      match e
      case Granted(Some(g)) =>
        if g.agent == "" || !ValidDomain(g.domain) then GrantsIn(c.mem) == mem && GrantsIn(c.store) == store
        else GrantsIn(c.mem) == Apply(mem, Put(g)) && GrantsIn(c.store) == if oks.first then Apply(store, Put(g)) else store
      case Revoked(Some((agent, domain))) =>
        if agent == "" || !ValidDomain(domain) then GrantsIn(c.mem) == mem && GrantsIn(c.store) == store
        else
          && GrantsIn(c.mem) == Apply(mem, DropPair(agent, domain))
          && GrantsIn(c.store) == if oks.first then Apply(store, DropPair(agent, domain)) else store
      case AgentGone(url) =>
        && GrantsIn(c.mem) == (if oks.first then Apply(mem, DropAgent(url)) else mem)
        && GrantsIn(c.store) == if oks.first && oks.second then Apply(store, DropAgent(url)) else store
      case _ => GrantsIn(c.mem) == mem && GrantsIn(c.store) == store
  {
    var ops := Ops(e);
    if |ops| > 0 {
      GrantsFollow(b.mem, ops[0]);
      GrantsFollow(b.store, ops[0]);
      if |ops| > 1 {
        GrantsFollow(ApplyOp(b.mem, ops[0]), ops[1]);
        GrantsFollow(ApplyOp(b.store, ops[0]), ops[1]);
      }
    }
    hide ApplyOp, GrantsIn, Apply, ValidDomain;
  }

  lemma InGrants(db: Db, k: Key)
    ensures k in GrantsIn(db) <==> AuthKey(k.agent, k.domain, k.kind) in db
  {
    if AuthKey(k.agent, k.domain, k.kind) in db {
      assert Key(AuthKey(k.agent, k.domain, k.kind).agent, AuthKey(k.agent, k.domain, k.kind).domain,
                 AuthKey(k.agent, k.domain, k.kind).kind) == k;
    }
  }
}
