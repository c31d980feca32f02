/**
 The on-demand store of agents' signing keys: a cache of registry answers with positive and negative
 lifetimes, one registered fetch per agent, a ceiling on concurrent fetches, and a grace period in which
 an expired answer still serves when the registry cannot be reached.
 */
module KeyStore {
  import opened Text

  // ---- registry answers ----

  datatype SigningKey = SigningKey(kid: string, material: string)

  /** The last key listed for an id, over all authorization rows; keys without an id are dropped. */
  ghost predicate Flattened(keys: seq<SigningKey>, byKid: map<string, SigningKey>) {
    && (forall kid <- byKid :: kid != "" && exists i :: 0 <= i < |keys| && LastFor(keys, i, kid) && byKid[kid] == keys[i])
    && (forall i :: 0 <= i < |keys| && keys[i].kid != "" ==> keys[i].kid in byKid)
  }

  ghost predicate LastFor(keys: seq<SigningKey>, i: nat, kid: string)
    requires i < |keys|
  {
    keys[i].kid == kid && forall j :: i < j < |keys| ==> keys[j].kid != kid
  }

  function Concat(rows: seq<seq<SigningKey>>): seq<SigningKey> {
    if rows == [] then [] else Concat(rows[..|rows| - 1]) + rows[|rows| - 1]
  }

  lemma FlattenMore(keys: seq<SigningKey>, byKid: map<string, SigningKey>, k: SigningKey)
    requires Flattened(keys, byKid)
    ensures Flattened(keys + [k], if k.kid == "" then byKid else byKid[k.kid := k])
  {
    var more, m := keys + [k], if k.kid == "" then byKid else byKid[k.kid := k];
    forall kid <- m ensures kid != "" && exists i :: 0 <= i < |more| && LastFor(more, i, kid) && m[kid] == more[i] {
      if kid == k.kid {
        assert LastFor(more, |keys|, kid);
      } else {
        var i :| 0 <= i < |keys| && LastFor(keys, i, kid) && byKid[kid] == keys[i];
        assert LastFor(more, i, kid) && more[i] == keys[i];
      }
    }
  }

  /** The rows one after the other. */
  lemma {:induction false} ConcatMore(a: seq<seq<SigningKey>>, b: seq<seq<SigningKey>>)
    ensures Concat(a + b) == Concat(a) + Concat(b)
    ensures forall row :: Concat([row]) == row
    decreases |b|
  {
    forall row ensures Concat([row]) == row {
      assert [row][..0] == [];
    }
    if b == [] {
      assert a + b == a;
    } else {
      var n := |b| - 1;
      assert (a + b)[..|a + b| - 1] == a + b[..n];
      ConcatMore(a, b[..n]);
    }
  }

  method Flatten(rows: seq<seq<SigningKey>>) returns (byKid: map<string, SigningKey>)
    ensures Flattened(Concat(rows), byKid)
    ensures forall k :: k in Concat(rows) && k.kid != "" ==> k.kid in byKid
    ensures forall kid <- byKid ::
              && kid != ""
              && exists i :: 0 <= i < |Concat(rows)| && Concat(rows)[i] == byKid[kid] && byKid[kid].kid == kid
                   && forall j :: i < j < |Concat(rows)| ==> Concat(rows)[j].kid != kid
  {
    byKid := map[];
    for i := 0 to |rows|
      invariant Flattened(Concat(rows[..i]), byKid)
    {
      assert Concat(rows[..i]) + rows[i][..0] == Concat(rows[..i]);
      for j := 0 to |rows[i]|
        invariant Flattened(Concat(rows[..i]) + rows[i][..j], byKid)
      {
        FlattenMore(Concat(rows[..i]) + rows[i][..j], byKid, rows[i][j]);
        assert Concat(rows[..i]) + rows[i][..j + 1] == Concat(rows[..i]) + rows[i][..j] + [rows[i][j]];
        if rows[i][j].kid != "" {
          byKid := byKid[rows[i][j].kid := rows[i][j]];
        }
      }
      assert rows[..i + 1][..i] == rows[..i] && rows[i][..|rows[i]|] == rows[i];
    }
    assert rows[..|rows|] == rows;
  }

  datatype Config = Config(maxFetches: nat, positiveTTL: int, negativeTTL: int, grace: int, cooldown: int)

  /** What the registry said about an agent at a time; no keys is a negative answer. */
  datatype Answer = Answer(url: string, keys: map<string, SigningKey>, at: int)

  /** A cached answer; `source` names the fetch that brought it. */
  datatype Entry = Entry(
    source: nat,
    keys: Option<map<string, SigningKey>>,
    fetchedAt: int,
    expires: int,
    staleUntil: Option<int>)

  function EntryOf(cfg: Config, f: nat, a: Answer): Entry {
    if a.keys == map[] then Entry(f, None, a.at, a.at + cfg.negativeTTL, None)
    else Entry(f, Some(a.keys), a.at, a.at + cfg.positiveTTL,
               if cfg.grace > 0 then Some(a.at + cfg.positiveTTL + cfg.grace) else None)
  }

  /** Whether an expired entry may still be served. */
  predicate ServesStale(cfg: Config, cached: Option<Entry>, now: int) {
    && cached.Some? && cfg.grace > 0 && cached.value.keys.Some?
    && cached.value.staleUntil.Some? && now < cached.value.staleUntil.value
  }

  // ---- what lookups share ----

  /** One registered fetch: the record its leader fills in and its waiters read. */
  datatype Fetch = Fetch(url: string, leader: nat, entry: Option<Entry>, failed: bool, done: bool)

  datatype Shared = Shared(
    cache: map<string, Entry>,
    inflight: map<string, nat>,
    fetches: map<nat, Fetch>,
    nextFetch: nat,
    slots: nat)

  function Cached(cache: map<string, Entry>, url: string): Option<Entry> {
    if url in cache then Some(cache[url]) else None
  }

  function Registered(sh: Shared, url: string, leader: nat): Shared {
    sh.(inflight := sh.inflight[url := sh.nextFetch],
        fetches := sh.fetches[sh.nextFetch := Fetch(url, leader, None, false, false)],
        nextFetch := sh.nextFetch + 1)
  }

  function Filled(sh: Shared, f: nat, entry: Option<Entry>, failed: bool): Shared
    requires f in sh.fetches
  {
    sh.(fetches := sh.fetches[f := sh.fetches[f].(entry := entry, failed := failed)])
  }

  function Finished(sh: Shared, f: nat): Shared
    requires f in sh.fetches
  {
    sh.(fetches := sh.fetches[f := sh.fetches[f].(done := true)])
  }

  /** The sections of a lookup that run under a lock or on the semaphore, each one indivisible. */
  class Store {
    const cfg: Config
    var cache: map<string, Entry>
    var inflight: map<string, nat>
    var fetches: map<nat, Fetch>
    var nextFetch: nat
    var slots: nat

    constructor (cfg: Config)
      ensures this.cfg == cfg && Value() == Shared(map[], map[], map[], 0, 0)
    {
      this.cfg := cfg;
      cache, inflight, fetches, nextFetch, slots := map[], map[], map[], 0, 0;
    }

    function Value(): Shared
      reads this
    {
      Shared(cache, inflight, fetches, nextFetch, slots)
    }

    method CacheGet(url: string) returns (cached: Option<Entry>)
      ensures cached == Cached(cache, url)
    {
      if url in cache {
        return Some(cache[url]);
      }
      return None;
    }

    method CacheAdd(url: string, e: Entry)
      modifies this
      ensures Value() == old(Value()).(cache := old(cache)[url := e])
    {
      cache := cache[url := e];
    }

    method Invalidate(url: string)
      modifies this
      ensures Value() == old(Value()).(cache := old(cache) - {url})
    {
      cache := cache - {url};
    }

    /** Under the in-flight lock: join the registered fetch of the agent, or register a new one. */
    method JoinOrLead(url: string, me: nat) returns (f: nat, lead: bool)
      modifies this
      ensures lead <==> url !in old(inflight)
      ensures f == (if lead then old(nextFetch) else old(inflight)[url])
      ensures Value() == if lead then Registered(old(Value()), url, me) else old(Value())
    {
      if url in inflight {
        return inflight[url], false;
      }
      f, lead := nextFetch, true;
      fetches := fetches[f := Fetch(url, me, None, false, false)];
      inflight := inflight[url := f];
      nextFetch := nextFetch + 1;
    }

    method TryAcquire() returns (acquired: bool)
      modifies this
      ensures acquired <==> old(slots) < cfg.maxFetches
      ensures Value() == if acquired then old(Value()).(slots := old(slots) + 1) else old(Value())
    {
      if slots < cfg.maxFetches {
        slots := slots + 1;
        return true;
      }
      return false;
    }

    method Fill(f: nat, entry: Option<Entry>, failed: bool)
      requires f in fetches
      modifies this
      ensures Value() == Filled(old(Value()), f, entry, failed)
    {
      fetches := fetches[f := fetches[f].(entry := entry, failed := failed)];
    }

    /** Taking a token out of an empty channel would block. */
    method Release()
      requires slots > 0
      modifies this
      ensures Value() == old(Value()).(slots := old(slots) - 1)
    {
      slots := slots - 1;
    }

    /** Counting a wait group below zero would panic. */
    method Done(f: nat)
      requires f in fetches && !fetches[f].done
      modifies this
      ensures Value() == Finished(old(Value()), f)
    {
      fetches := fetches[f := fetches[f].(done := true)];
    }

    method Deregister(url: string)
      modifies this
      ensures Value() == old(Value()).(inflight := old(inflight) - {url})
    {
      inflight := inflight - {url};
    }

    /** What a leader does on every way out: give back its slot, release its waiters, deregister. */
    method Leave(f: nat, url: string, acquired: bool)
      requires acquired ==> slots > 0
      requires f in fetches && !fetches[f].done
      modifies this
      ensures cache == old(cache) && nextFetch == old(nextFetch)
      ensures slots == old(slots) - if acquired then 1 else 0
      ensures inflight == old(inflight) - {url}
      ensures fetches == old(fetches)[f := old(fetches)[f].(done := true)]
    {
      if acquired {
        Release();
      }
      Done(f);
      Deregister(url);
    }

    /** Every fetch on record was registered, and every registered fetch is on record. */
    ghost predicate Valid()
      reads this
    {
      Consistent(Value())
    }

    /** The registry is asked, by the leader of a fetch just registered; the cache changes only on success. */
    method Lead(f: nat, url: string, response: Option<Answer>) returns (r: Option<Entry>)
      requires f in fetches && !fetches[f].done && url in inflight
      modifies this
      ensures nextFetch == old(nextFetch) && slots == old(slots) && inflight == old(inflight) - {url}
      ensures r == if old(slots) >= cfg.maxFetches || response.None? then None else Some(EntryOf(cfg, f, response.value))
      ensures cache == if r.Some? then old(cache)[url := r.value] else old(cache)
      ensures fetches == old(fetches)[f := old(fetches)[f].(entry := r, failed := r.None?, done := true)]
    {
      var acquired := TryAcquire();
      assert cache == old(cache) && inflight == old(inflight) && fetches == old(fetches);
      r := None;
      if !acquired || response.None? {
        Fill(f, None, true);
      } else {
        r := Some(EntryOf(cfg, f, response.value));
        Fill(f, r, false);
        CacheAdd(url, r.value);
      }
      Leave(f, url, acquired);
    }

    /** What the registered fetch of the agent brought, once it is done, or what a new one brings. */
    method Fetched(url: string, me: nat, response: Option<Answer>) returns (r: Option<Entry>, failed: bool)
      requires Valid() && Released(Value(), url)
      modifies this
      ensures Valid() && Released(Value(), url)
      ensures (r, failed, Value()) == Obtained(cfg, old(Value()), url, me, response)
    {
      var f, lead := JoinOrLead(url, me);
      if !lead {
        return if fetches[f].failed then None else fetches[f].entry, fetches[f].failed;
      }
      r := Lead(f, url, response);
      failed := r.None?;
      assert inflight == old(inflight) && fetches == old(fetches)[f := Fetch(url, me, r, failed, true)];
    }

    /**
     The entry for an agent: a fresh cached entry as it is; otherwise what its registered fetch brought, or
     what the registry now answers, which then is cached; if that failed, with the cache untouched, a stale
     entry in its grace period. The slot taken and the registration made are gone again in every case.
     */
    method EntryFor(url: string, me: nat, checked: int, response: Option<Answer>, checkedAgain: int)
      returns (r: Option<Entry>)
      requires Valid() && Released(Value(), url)
      modifies this
      ensures Valid() && Released(Value(), url)
      ensures (r, Value()) == FirstEntry(cfg, old(Value()), url, me, checked, response, checkedAgain)
      // an entry that has not expired is used as it is
      ensures url in old(cache) && checked < old(cache)[url].expires ==> r == Some(old(cache)[url]) && Value() == old(Value())
      // an expired or missing one is fetched, and the answer cached: without keys for the negative lifetime
      ensures !(url in old(cache) && checked < old(cache)[url].expires) && url !in old(inflight)
              && old(slots) < cfg.maxFetches && response.Some? ==>
                && var a := response.value;
                && r == Some(if |a.keys| == 0 then Entry(old(nextFetch), None, a.at, a.at + cfg.negativeTTL, None)
                             else Entry(old(nextFetch), Some(a.keys), a.at, a.at + cfg.positiveTTL,
                                        if cfg.grace > 0 then Some(a.at + cfg.positiveTTL + cfg.grace) else None))
                && cache == old(cache)[url := r.value]
      // a refused or failed fetch leaves the cache alone; the expired entry serves exactly in its grace period
      ensures !(url in old(cache) && checked < old(cache)[url].expires) && url !in old(inflight)
              && (old(slots) >= cfg.maxFetches || response.None?) ==>
                && cache == old(cache)
                && r == if url in old(cache) && cfg.grace > 0 && old(cache)[url].keys.Some?
                           && old(cache)[url].staleUntil.Some? && checkedAgain < old(cache)[url].staleUntil.value
                        then Some(old(cache)[url]) else None
      // who joins a fetch takes what it brought, or serves stale as well
      ensures !(url in old(cache) && checked < old(cache)[url].expires) && url in old(inflight) ==>
                && Value() == old(Value())
                && var g := old(fetches)[old(inflight)[url]];
                && (!g.failed ==> r == g.entry)
                && (g.failed ==>
                      r == if url in old(cache) && cfg.grace > 0 && old(cache)[url].keys.Some?
                              && old(cache)[url].staleUntil.Some? && checkedAgain < old(cache)[url].staleUntil.value
                           then Some(old(cache)[url]) else None)
    {
      var cached := CacheGet(url);
      if cached.Some? && checked < cached.value.expires {
        return cached;
      }
      var failed;
      r, failed := Fetched(url, me, response);
      if failed {
        r := if ServesStale(cfg, cached, checkedAgain) then cached else None;
      }
    }

    /**
     A whole lookup. An unknown key id asks the registry once more, but only if the entry at hand is old
     enough; if that fails, the entry at hand stays cached.
     */
    method LookupKey(kid: string, url: string, me: nat, checked: int, response: Option<Answer>, checkedAgain: int,
                     aged: int, again: Option<Answer>)
      returns (key: Option<SigningKey>)
      requires Valid() && Released(Value(), url)
      modifies this
      ensures Valid() && Released(Value(), url)
      ensures (key, Value()) == LookedUp(cfg, old(Value()), kid, url, me, checked, response, checkedAgain, aged, again)
      // an entry that has not expired answers for its keys; for an unknown id only an old enough one asks again
      ensures url in old(cache) && checked < old(cache)[url].expires && old(cache)[url].keys.Some?
              && kid in old(cache)[url].keys.value ==>
                key == Some(old(cache)[url].keys.value[kid]) && Value() == old(Value())
      ensures url in old(cache) && checked < old(cache)[url].expires && old(cache)[url].keys.None? ==>
                key == None && Value() == old(Value())
      ensures url in old(cache) && checked < old(cache)[url].expires && old(cache)[url].keys.Some?
              && kid !in old(cache)[url].keys.value && aged - old(cache)[url].fetchedAt < cfg.cooldown ==>
                key == None && Value() == old(Value())
      ensures url in old(cache) && checked < old(cache)[url].expires && old(cache)[url].keys.Some?
              && kid !in old(cache)[url].keys.value && aged - old(cache)[url].fetchedAt >= cfg.cooldown && url !in old(inflight) ==>
                if old(slots) < cfg.maxFetches && again.Some?
                then && key == (if kid in again.value.keys then Some(again.value.keys[kid]) else None)
                     && cache.Keys == old(cache).Keys && cache[url].fetchedAt == again.value.at
                     && cache[url].keys == (if |again.value.keys| == 0 then None else Some(again.value.keys))
                else key == None && cache == old(cache)
      // otherwise the key is looked for in what the registry answers
      ensures !(url in old(cache) && checked < old(cache)[url].expires) && url !in old(inflight)
              && old(slots) < cfg.maxFetches && response.Some? && kid in response.value.keys ==>
                && key == Some(response.value.keys[kid])
                && url in cache && cache[url].keys == Some(response.value.keys) && cache[url].fetchedAt == response.value.at
    {
      var entry := EntryFor(url, me, checked, response, checkedAgain);
      if entry.None? || entry.value.keys.None? {
        return None;
      }
      if kid in entry.value.keys.value {
        return Some(entry.value.keys.value[kid]);
      }
      if aged - entry.value.fetchedAt < cfg.cooldown {
        return None;
      }
      var renewed, _ := Fetched(url, me, again);
      if renewed.Some? && renewed.value.keys.Some? && kid in renewed.value.keys.value {
        return Some(renewed.value.keys.value[kid]);
      }
      return None;
    }
  }

  function KeyIn(e: Option<Entry>, kid: string): Option<SigningKey> {
    if e.Some? && e.value.keys.Some? && kid in e.value.keys.value then Some(e.value.keys.value[kid]) else None
  }

  ghost predicate Consistent(sh: Shared) {
    (forall f <- sh.fetches :: f < sh.nextFetch) && (forall url <- sh.inflight :: sh.inflight[url] in sh.fetches)
  }

  /** Nobody has to wait for the agent's fetch: there is none, or its waiters are released. */
  ghost predicate Released(sh: Shared, url: string) {
    url in sh.inflight ==> sh.inflight[url] in sh.fetches && sh.fetches[sh.inflight[url]].done
  }

  /** What a fetch brings, whether it failed, and what is shared afterwards: a joined one changes nothing. */
  ghost function Obtained(cfg: Config, sh: Shared, url: string, me: nat, response: Option<Answer>)
    : (Option<Entry>, bool, Shared)
    requires Released(sh, url)
  {
    if url in sh.inflight then
      var g := sh.fetches[sh.inflight[url]];
      (if g.failed then None else g.entry, g.failed, sh)
    else
      var e := if sh.slots >= cfg.maxFetches || response.None? then None
               else Some(EntryOf(cfg, sh.nextFetch, response.value));
      (e, e.None?, sh.(cache := if e.Some? then sh.cache[url := e.value] else sh.cache,
                       fetches := sh.fetches[sh.nextFetch := Fetch(url, me, e, e.None?, true)],
                       nextFetch := sh.nextFetch + 1))
  }

  /** The entry a lookup starts from, and what is shared then. */
  ghost function FirstEntry(cfg: Config, sh: Shared, url: string, me: nat,
                            checked: int, response: Option<Answer>, checkedAgain: int): (Option<Entry>, Shared)
    requires Released(sh, url)
  {
    var cached := Cached(sh.cache, url);
    if cached.Some? && checked < cached.value.expires then (cached, sh)
    else
      var (r, failed, after) := Obtained(cfg, sh, url, me, response);
      (if !failed then r else if ServesStale(cfg, cached, checkedAgain) then cached else None, after)
  }

  /** The key of the entry a lookup starts from, or, for an unknown id and once that is old enough, of another fetch. */
  ghost function LookedUp(cfg: Config, sh: Shared, kid: string, url: string, me: nat, checked: int, response: Option<Answer>,
                          checkedAgain: int, aged: int, again: Option<Answer>): (Option<SigningKey>, Shared)
    requires Released(sh, url)
  {
    var (first, after) := FirstEntry(cfg, sh, url, me, checked, response, checkedAgain);
    if first.None? || first.value.keys.None? then (None, after)
    else if kid in first.value.keys.value || aged - first.value.fetchedAt < cfg.cooldown then (KeyIn(first, kid), after)
    else
      var (renewed, _, refetched) := Obtained(cfg, after, url, me, again);
      (KeyIn(renewed, kid), refetched)
  }
}
