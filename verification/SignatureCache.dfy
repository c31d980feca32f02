/**
 The router's cache of context-match signatures: keyed by what the signed bytes depend on, bounded, and
 evicted by epoch.
 */
module SignatureCache {
  import opened Text
  import opened Signing

  datatype CacheKey = CacheKey(
    seller: string,
    propertyRID: string,
    placementID: string,
    endpoint: string,
    packages: string,
    epoch: int)

  function KeyFor(r: Request, url: string, epoch: int): CacheKey {
    CacheKey(r.seller, r.propertyRID, r.placementID, url, PackagesText(r.packageIDs), epoch)
  }

  /** The signature that the fields of a cache key determine. */
  function SignatureOf(signer: string, k: CacheKey): Signature {
    Made(signer, Join([SIGNED_TYPE, k.seller, k.propertyRID, k.placementID, k.packages,
                       NormalizeEndpoint(k.endpoint), PrintInt(k.epoch)], '\n'))
  }

  /** The key covers everything that is signed, so requests with one key have one signature. */
  lemma KeyDeterminesSignature(signer: string, r: Request, url: string, epoch: int)
    ensures SignatureOf(signer, KeyFor(r, url, epoch)) == SignContextMatch(signer, r, url, epoch)
  {
  }

  /** On validated requests and normalised endpoints the key distinguishes no more than the signature does. */
  lemma SameSignatureSameKey(signer: string, r: Request, x: string, e: int, s: Request, y: string, f: int)
    requires OneLine(r, x) && OneLine(s, y) && NormalizeEndpoint(x) == x && NormalizeEndpoint(y) == y
    ensures SignContextMatch(signer, r, x, e) == SignContextMatch(signer, s, y, f) <==> KeyFor(r, x, e) == KeyFor(s, y, f)
  {
    InputInjective(r, x, e, s, y, f);
  }

  class Cache {
    var entries: map<CacheKey, Signature>
    const maxEntries: nat
    ghost const signer: string

    constructor (maxEntries: int, ghost signer: string)
      ensures Valid() && entries == map[] && this.signer == signer
      ensures this.maxEntries == if maxEntries <= 0 then 10_000 else maxEntries
    {
      this.maxEntries := if maxEntries <= 0 then 10_000 else maxEntries;
      this.signer := signer;
      entries := map[];
    }

    /** Every cached signature is the one its key determines, and there are never too many. */
    ghost predicate Valid()
      reads this
    {
      && 0 < maxEntries && |entries| <= maxEntries
      && forall k <- entries :: entries[k] == SignatureOf(signer, k)
    }

    /** One caller's store, under the lock. */
    method Store(k: CacheKey, sig: Signature)
      requires Valid() && sig == SignatureOf(signer, k)
      modifies this
      ensures Valid()
      ensures entries == (if |old(entries)| < maxEntries then old(entries) else Evicted(old(entries), k.epoch, maxEntries))[k := sig]
    {
      if |entries| >= maxEntries {
        EvictOldEpochs(k.epoch);
      }
      assert |entries| < maxEntries;
      GrowsByOne(entries, k, sig);
      entries := entries[k := sig];
    }

    method EvictOldEpochs(current: int)
      requires Valid()
      modifies this
      ensures Valid() && |entries| < maxEntries
      ensures entries == Evicted(old(entries), current, maxEntries)
      ensures var recent := set k | k in old(entries) && k.epoch >= current - 1;
              entries.Keys == if |recent| < maxEntries then recent else {}
      ensures forall k <- entries :: entries[k] == old(entries)[k]
    {
      assert Recent(entries, current).Keys == set k | k in entries && k.epoch >= current - 1;
      var all := entries;
      entries := DropOld(all, current);
      if |entries| >= maxEntries {
        entries := map[];
      }
    }

    /**
     The signature for a request; `meanwhile` is what other callers store while this one signs without
     holding the lock. Whatever that is, the result is the signature that direct signing gives.
     */
    method SignatureFor(key: string, r: Request, url: string, epoch: int, meanwhile: seq<CacheKey>) returns (sig: Signature)
      requires Valid() && key == signer
      modifies this
      ensures Valid() && sig == SignContextMatch(signer, r, url, epoch)
      ensures KeyFor(r, url, epoch) in old(entries) ==> entries == old(entries)
      ensures KeyFor(r, url, epoch) in entries
    {
      var k := KeyFor(r, url, epoch);
      KeyDeterminesSignature(signer, r, url, epoch);
      if k in entries {
        return entries[k];
      }
      for i := 0 to |meanwhile|
        invariant Valid()
      {
        Store(meanwhile[i], SignatureOf(key, meanwhile[i]));
      }
      sig := SignContextMatch(key, r, url, epoch);
      Store(k, sig);
    }
  }

  /** The signatures of the present and the previous epoch. */
  function Recent(all: map<CacheKey, Signature>, current: int): map<CacheKey, Signature> {
    map k | k in all && k.epoch >= current - 1 :: all[k]
  }

  /** What eviction keeps: all of those if they leave room, and otherwise nothing. */
  function Evicted(all: map<CacheKey, Signature>, current: int, maxEntries: nat): map<CacheKey, Signature> {
    if |Recent(all, current)| < maxEntries then Recent(all, current) else map[]
  }

  method DropOld(all: map<CacheKey, Signature>, current: int) returns (left: map<CacheKey, Signature>)
    ensures left == Recent(all, current)
  {
    left := all;
    var todo := all.Keys;
    while todo != {}
      invariant todo <= all.Keys
      invariant left == map k | k in all && (k in todo || k.epoch >= current - 1) :: all[k]
      decreases todo
    {
      var k :| k in todo;
      if k.epoch < current - 1 {
        left := left - {k};
      }
      todo := todo - {k};
    }
  }

  lemma GrowsByOne(m: map<CacheKey, Signature>, k: CacheKey, sig: Signature)
    ensures |m[k := sig]| <= |m| + 1
  {
    assert m[k := sig].Keys == m.Keys + {k};
    assert |m.Keys + {k}| <= |m.Keys| + 1 by {
      if k in m {
        assert m.Keys + {k} == m.Keys;
      }
    }
  }
}
