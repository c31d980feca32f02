/**
 The router's cache of context-match answers: five components in one key, a lifetime per answer, and a bound
 kept by sweeping and by evicting the oldest insert.
 */
module ContextCache {
  import opened Text

  datatype Parts = Parts(propertyRID: string, placementID: string, providerID: string, seller: string, country: string)

  const NUL: char := '\0'

  function Components(p: Parts): seq<string> { [p.propertyRID, p.placementID, p.providerID, p.seller, p.country] }

  function CacheKey(p: Parts): string { Join(Components(p), NUL) }

  /** Components without NUL are never confused. */
  lemma KeyInjective(p: Parts, q: Parts)
    requires FreeOf(Components(p), NUL) && FreeOf(Components(q), NUL)
    ensures CacheKey(p) == CacheKey(q) <==> p == q
  {
    if CacheKey(p) == CacheKey(q) {
      JoinInjective(Components(p), Components(q), NUL);
      var a, b := Components(p), Components(q);
      assert a[0] == b[0] && a[1] == b[1] && a[2] == b[2] && a[3] == b[3] && a[4] == b[4];
    }
  }

  const SECOND := 1_000_000_000
  const DEFAULT_TTL := 300 * SECOND
  const MAX_TTL_SECONDS := 86400

  datatype Response = Response(body: string, cacheTTL: Option<int>)

  /** How long an answer may be served; none when the provider disables caching. */
  function ResolvedTTL(r: Response, defaultTTL: int): (ttl: Option<int>)
    ensures ttl.None? <==> r.cacheTTL == Some(0)
    ensures r.cacheTTL.None? || r.cacheTTL.value < 0 ==> ttl == Some(defaultTTL)
    ensures r.cacheTTL.Some? && 0 < r.cacheTTL.value <= 86400 ==> ttl == Some(r.cacheTTL.value * 1_000_000_000)
    ensures r.cacheTTL.Some? && r.cacheTTL.value > 86400 ==> ttl == Some(86400 * 1_000_000_000)
  {
    match r.cacheTTL
    case None => Some(defaultTTL)
    case Some(secs) =>
      if secs == 0 then None
      else if secs < 0 then Some(defaultTTL)
      else Some((if secs > MAX_TTL_SECONDS then MAX_TTL_SECONDS else secs) * SECOND)
  }

  datatype Entry = Entry(response: Response, expiresAt: int, insertedAt: int)

  /** One answer that was stored: under which key, when, and for how long. */
  datatype Stored = Stored(key: string, response: Response, at: int, ttl: int)

  /** The last of these stores under a key is the one at `i`. */
  ghost predicate LastStore(puts: seq<Stored>, i: nat, key: string) {
    i < |puts| && puts[i].key == key && forall j :: i < j < |puts| ==> puts[j].key != key
  }

  ghost predicate FromLast(puts: seq<Stored>, key: string, e: Entry) {
    exists i: nat :: LastStore(puts, i, key) && EntryOf(puts[i]) == e
  }

  function EntryOf(x: Stored): Entry { Entry(x.response, x.at + x.ttl, x.at) }

  lemma LastIsNew(puts: seq<Stored>, x: Stored)
    ensures FromLast(puts + [x], x.key, EntryOf(x))
  {
    assert LastStore(puts + [x], |puts|, x.key);
  }

  lemma LastStays(puts: seq<Stored>, x: Stored, key: string, e: Entry)
    requires FromLast(puts, key, e) && x.key != key
    ensures FromLast(puts + [x], key, e)
  {
    var i: nat :| LastStore(puts, i, key) && EntryOf(puts[i]) == e;
    assert LastStore(puts + [x], i, key);
  }

  ghost predicate AllLast(entries: map<string, Entry>, puts: seq<Stored>) {
    forall k <- entries :: FromLast(puts, k, entries[k])
  }

  lemma AllLastMore(entries: map<string, Entry>, puts: seq<Stored>, x: Stored)
    requires AllLast(entries, puts)
    ensures AllLast(entries[x.key := EntryOf(x)], puts + [x])
  {
    LastIsNew(puts, x);
    forall k <- entries | k != x.key ensures FromLast(puts + [x], k, entries[k]) {
      assert FromLast(puts, k, entries[k]);
      LastStays(puts, x, k, entries[k]);
    }
    hide FromLast;
  }

  lemma AllLastLess(entries: map<string, Entry>, puts: seq<Stored>, left: map<string, Entry>)
    requires AllLast(entries, puts) && forall k <- left :: k in entries && left[k] == entries[k]
    ensures AllLast(left, puts)
  {
    hide FromLast;
  }

  /** The entries whose lifetime is not over. */
  function Live(all: map<string, Entry>, now: int): map<string, Entry> {
    map k | k in all && now <= all[k].expiresAt :: all[k]
  }

  /** One entry is gone, none of which was inserted earlier. */
  ghost predicate OldestGone(was: map<string, Entry>, left: map<string, Entry>) {
    exists k :: k in was && left == was - {k} && forall j <- was :: was[k].insertedAt <= was[j].insertedAt
  }

  /**
   What is left before an answer goes in: everything, if its key is there or there is room; otherwise what is
   live, if that makes room; otherwise that without one oldest entry.
   */
  ghost predicate RoomMade(was: map<string, Entry>, now: int, maxEntries: nat, key: string, left: map<string, Entry>) {
    if maxEntries == 0 || key in was || |was| < maxEntries then left == was
    else if |Live(was, now)| < maxEntries then left == Live(was, now)
    else OldestGone(Live(was, now), left)
  }

  /** Nothing goes where there is room; and of what is live at most one entry, which none is older than. */
  lemma RoomMeans(was: map<string, Entry>, now: int, maxEntries: nat, key: string, left: map<string, Entry>)
    requires RoomMade(was, now, maxEntries, key, left)
    ensures forall k <- left :: k in was && left[k] == was[k]
    ensures maxEntries == 0 || key in was || |was| < maxEntries ==> left == was
    ensures forall k <- was, j <- was ::
              k !in left && now <= was[k].expiresAt && now <= was[j].expiresAt ==>
                was[k].insertedAt <= was[j].insertedAt && (j == k || j in left)
  {
  }

  class Cache {
    var entries: map<string, Entry>
    const defaultTTL: int
    const maxEntries: nat
    ghost var puts: seq<Stored>

    constructor (defaultTTL: int, maxEntries: int)
      ensures Valid() && entries == map[] && puts == []
      ensures this.defaultTTL == if defaultTTL <= 0 then DEFAULT_TTL else defaultTTL
      ensures this.maxEntries == if maxEntries < 0 then 0 else maxEntries
    {
      this.defaultTTL := if defaultTTL <= 0 then DEFAULT_TTL else defaultTTL;
      this.maxEntries := if maxEntries < 0 then 0 else maxEntries;
      entries, puts := map[], [];
    }

    /** Every entry is the last one stored under its key; a positive bound is kept. */
    ghost predicate Valid()
      reads this
    {
      && (maxEntries > 0 ==> |entries| <= maxEntries)
      && AllLast(entries, puts)
    }

    /** A hit is the last answer stored for the key, no later than its lifetime. */
    method Get(p: Parts, now: int) returns (hit: Option<Response>)
      requires Valid()
      modifies this`entries
      ensures Valid()
      ensures hit.Some? ==> exists i: nat :: LastStore(puts, i, CacheKey(p)) && puts[i].response == hit.value
                                             && now <= puts[i].at + puts[i].ttl
      ensures hit.None? ==> CacheKey(p) !in entries
      ensures hit.None? <==> CacheKey(p) !in old(entries) || now > old(entries)[CacheKey(p)].expiresAt
      ensures forall k <- old(entries) :: k != CacheKey(p) ==> k in entries && entries[k] == old(entries)[k]
      ensures hit.Some? ==> entries == old(entries)
    {
      var key := CacheKey(p);
      if key !in entries {
        return None;
      }
      if now > entries[key].expiresAt {
        AllLastLess(entries, puts, entries - {key});
        SizeOfPart((entries - {key}).Keys, entries.Keys);
        entries := entries - {key};
        return None;
      }
      ghost var i: nat :| LastStore(puts, i, key) && EntryOf(puts[i]) == entries[key];
      return Some(entries[key].response);
    }

    /** An answer that may be cached becomes the last stored one; one that may not changes nothing at all. */
    method Put(p: Parts, r: Response, now: int)
      requires Valid()
      modifies this
      ensures Valid()
      ensures ResolvedTTL(r, defaultTTL).None? ==> entries == old(entries) && puts == old(puts)
      ensures ResolvedTTL(r, defaultTTL).Some? ==>
                puts == old(puts) + [Stored(CacheKey(p), r, now, ResolvedTTL(r, defaultTTL).value)]
                && CacheKey(p) in entries && entries[CacheKey(p)] == EntryOf(puts[|puts| - 1])
      ensures ResolvedTTL(r, defaultTTL).Some? ==>
                exists left: map<string, Entry> :: RoomMade(old(entries), now, maxEntries, CacheKey(p), left)
                  && entries == left[CacheKey(p) := EntryOf(puts[|puts| - 1])]
      // the answer is kept until its lifetime is over, and so is everything else where there is room
      ensures ResolvedTTL(r, defaultTTL).Some? ==>
                CacheKey(p) in entries && entries[CacheKey(p)] == Entry(r, now + ResolvedTTL(r, defaultTTL).value, now)
      ensures ResolvedTTL(r, defaultTTL).Some?
              && (maxEntries == 0 || CacheKey(p) in old(entries) || |old(entries)| < maxEntries) ==>
                forall k <- old(entries) :: k != CacheKey(p) ==> k in entries && entries[k] == old(entries)[k]
      // otherwise what is expired goes, and of the rest at most one, which none is older than
      ensures forall k <- entries :: k != CacheKey(p) ==> k in old(entries) && entries[k] == old(entries)[k]
      ensures forall k <- old(entries), j <- old(entries) ::
                k !in entries && now <= old(entries)[k].expiresAt && now <= old(entries)[j].expiresAt && j != CacheKey(p) ==>
                  old(entries)[k].insertedAt <= old(entries)[j].insertedAt && (j == k || j in entries)
    {
      hide CacheKey, AllLast, RoomMade;
      var ttl := ResolvedTTL(r, defaultTTL);
      if ttl.None? {
        return;
      }
      Store(CacheKey(p), r, now, ttl.value);
      ghost var left: map<string, Entry> :| RoomMade(old(entries), now, maxEntries, CacheKey(p), left)
        && entries == left[CacheKey(p) := EntryOf(puts[|puts| - 1])];
      RoomMeans(old(entries), now, maxEntries, CacheKey(p), left);
    }

    method Store(key: string, r: Response, now: int, ttl: int)
      requires Valid()
      modifies this
      ensures Valid()
      ensures puts == old(puts) + [Stored(key, r, now, ttl)]
      ensures exists left: map<string, Entry> :: RoomMade(old(entries), now, maxEntries, key, left)
                && entries == left[key := Entry(r, now + ttl, now)]
    {
      MakeRoom(key, now);
      ghost var left := entries;
      hide AllLast, RoomMade;
      ghost var x := Stored(key, r, now, ttl);
      var e := Entry(r, now + ttl, now);
      assert e == EntryOf(x);
      AllLastMore(entries, puts, x);
      SizeOfPut(entries, key, e);
      hide EntryOf;
      entries, puts := entries[key := e], puts + [x];
    }

    /** Before a new key goes in: sweeps, and evicts if sweeping was not enough. */
    method MakeRoom(key: string, now: int)
      requires Valid()
      modifies this`entries
      ensures Valid()
      ensures maxEntries > 0 && key !in entries ==> |entries| < maxEntries
      ensures RoomMade(old(entries), now, maxEntries, key, entries)
    {
      hide AllLast;
      if maxEntries > 0 && key !in entries && |entries| >= maxEntries {
        SweepExpired(now);
        if |entries| >= maxEntries {
          EvictOldest();
        }
      }
    }

    method SweepExpired(now: int)
      requires Valid()
      modifies this`entries
      ensures Valid()
      ensures entries == Live(old(entries), now)
    {
      var all := entries;
      var left := Unexpired(all, now);
      assert left.Keys <= all.Keys;
      SizeOfPart(left.Keys, all.Keys);
      AllLastLess(all, puts, left);
      hide AllLast;
      entries := left;
    }

    /** Takes out one entry, none of which was inserted earlier. */
    method EvictOldest()
      requires Valid() && entries != map[]
      modifies this`entries
      ensures Valid() && |entries| == |old(entries)| - 1
      ensures OldestGone(old(entries), entries)
    {
      var oldest := Oldest(entries);
      assert (entries - {oldest}).Keys == entries.Keys - {oldest};
      AllLastLess(entries, puts, entries - {oldest});
      hide AllLast;
      entries := entries - {oldest};
    }
  }

  method Unexpired(all: map<string, Entry>, now: int) returns (left: map<string, Entry>)
    ensures left == Live(all, now)
  {
    left := all;
    var todo := all.Keys;
    while todo != {}
      invariant todo <= all.Keys
      invariant left == map k | k in all && (k in todo || now <= all[k].expiresAt) :: all[k]
      decreases todo
    {
      var k :| k in todo;
      if now > all[k].expiresAt {
        left := left - {k};
      }
      todo := todo - {k};
    }
  }

  method Oldest(entries: map<string, Entry>) returns (oldest: string)
    requires entries != map[]
    ensures oldest in entries && forall k <- entries :: entries[oldest].insertedAt <= entries[k].insertedAt
  {
    var first :| first in entries;
    oldest := first;
    var todo := entries.Keys;
    while todo != {}
      invariant todo <= entries.Keys && oldest in entries
      invariant forall k <- entries :: k !in todo ==> entries[oldest].insertedAt <= entries[k].insertedAt
      decreases todo
    {
      var k :| k in todo;
      if entries[k].insertedAt < entries[oldest].insertedAt {
        oldest := k;
      }
      todo := todo - {k};
    }
  }

  lemma SizeOfPut(m: map<string, Entry>, k: string, e: Entry)
    ensures |m[k := e]| == if k in m then |m| else |m| + 1
  {
    assert m[k := e].Keys == m.Keys + {k};
    if k in m {
      assert m.Keys + {k} == m.Keys;
    }
  }

  lemma SizeOfPart(a: set<string>, b: set<string>)
    requires a <= b
    ensures |a| <= |b|
  {
    assert b == a + (b - a);
  }

  /** Disabling caching does not take back what was stored before: a later look-up still finds it. */
  method DisablingKeepsTheOldAnswer(c: Cache, p: Parts, r: Response, disable: Response, now: int, later: int) returns (hit: Option<Response>)
    requires c.Valid() && ResolvedTTL(r, c.defaultTTL).Some? && disable.cacheTTL == Some(0)
    requires later <= now + ResolvedTTL(r, c.defaultTTL).value
    modifies c
    ensures c.Valid() && hit == Some(r)
  {
    c.Put(p, r, now);
    c.Put(p, disable, now);
    ghost var puts := c.puts;
    hit := c.Get(p, later);
    ghost var i: nat :| LastStore(puts, i, CacheKey(p)) && puts[i].response == hit.value;
    assert LastStore(puts, |puts| - 1, CacheKey(p));
  }
}
