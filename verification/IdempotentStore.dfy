/**
 The idempotency middleware: an in-memory backend keyed by scope and idempotency key, and the wrapper
 that replays a stored response, reports a conflict, or runs the handler and stores what it returned.
 */
module IdempotentStore {
  import opened Text

  // ---- keys ----

  predicate KeyChar(c: char) {
    'A' <= c <= 'Z' || 'a' <= c <= 'z' || '0' <= c <= '9' || c == '_' || c == '.' || c == ':' || c == '-'
  }

  predicate ValidKey(key: string) {
    16 <= |key| <= 255 && forall i :: 0 <= i < |key| ==> KeyChar(key[i])
  }

  const NUL: char := '\0'

  /** The key under which the backend files an entry. */
  function ScopeKey(scope: string, key: string): string { scope + [NUL] + key }

  lemma AfterTheScope(scope: string, key: string, i: nat)
    requires NUL !in key && |scope| < i < |ScopeKey(scope, key)|
    ensures ScopeKey(scope, key)[i] != NUL
  {
    assert ScopeKey(scope, key)[i] == key[i - |scope| - 1];
  }

  /** The last NUL ends the scope. */
  lemma ScopeNoShorter(scope: string, key: string, scope': string, key': string)
    requires NUL !in key && ScopeKey(scope, key) == ScopeKey(scope', key')
    ensures |scope| >= |scope'|
  {
    if |scope| < |scope'| {
      AfterTheScope(scope, key, |scope'|);
    }
  }

  /** Whatever the scopes hold, keys without NUL are never confused. */
  lemma ScopeKeyInjective(scope: string, key: string, scope': string, key': string)
    requires NUL !in key && NUL !in key'
    requires ScopeKey(scope, key) == ScopeKey(scope', key')
    ensures scope == scope' && key == key'
  {
    ScopeNoShorter(scope, key, scope', key');
    ScopeNoShorter(scope', key', scope, key);
    var s, t := ScopeKey(scope, key), ScopeKey(scope', key');
    assert s[..|scope|] == scope && t[..|scope|] == scope';
    assert s[|scope| + 1..] == key && t[|scope| + 1..] == key';
  }

  lemma ValidKeysKeptApart(scope: string, key: string, scope': string, key': string)
    requires ValidKey(key) && ValidKey(key')
    ensures ScopeKey(scope, key) == ScopeKey(scope', key') <==> scope == scope' && key == key'
  {
    if ScopeKey(scope, key) == ScopeKey(scope', key') {
      ScopeKeyInjective(scope, key, scope', key');
    }
  }

  // ---- entries and outcomes ----

  datatype Entry = Entry(hash: string, response: string, createdAt: int, expiresAt: Option<int>)

  datatype Failure = BadRequest | MissingKey | InvalidKey | NoScope | NoHash | HandlerFailed | Expired | Conflict

  datatype Outcome = Success(response: string, replayed: bool) | Error(failure: Failure)

  const SECOND := 1_000_000_000
  const MIN_TTL := 3600 * SECOND
  const MAX_TTL := 7 * 24 * 3600 * SECOND
  const DEFAULT_CLOCK_SKEW := 60 * SECOND

  datatype Config = Config(ttl: int, skew: int, keyRequired: bool)

  predicate ValidConfig(cfg: Config) { MIN_TTL <= cfg.ttl <= MAX_TTL && cfg.skew > 0 }

  /** The configuration a store starts with; none where the constructor refuses its options. */
  function Configure(ttl: int, skew: int, keyRequired: bool): (cfg: Option<Config>)
    ensures cfg.Some? <==> 3600 * SECOND <= ttl <= 7 * 24 * 3600 * SECOND && skew >= 0
    ensures cfg.Some? ==> ValidConfig(cfg.value) && cfg.value.ttl == ttl && cfg.value.keyRequired == keyRequired
    ensures cfg.Some? ==> if skew == 0 then cfg.value.skew == 60 * SECOND else cfg.value.skew == skew
  {
    if ttl < MIN_TTL || ttl > MAX_TTL then None
    else if skew < 0 then None
    else Some(Config(ttl, if skew == 0 then DEFAULT_CLOCK_SKEW else skew, keyRequired))
  }

  function After(now: int, limit: Option<int>, slack: int): bool {
    limit.Some? && now > limit.value + slack
  }

  /** What a stored entry answers to a call that read the clock at `now`. */
  function EvaluateExisting(e: Entry, hash: string, now: int, skew: int): Outcome {
    if After(now, e.expiresAt, skew) then Error(Expired)
    else if e.hash != hash then Error(Conflict)
    else Success(e.response, true)
  }

  /** What a call answers after it tried to put the response it computed. */
  function Settle(winner: Option<Entry>, stored: bool, computed: string, hash: string, now: int, skew: int): Outcome {
    if stored || winner.None? then Success(computed, false)
    else EvaluateExisting(winner.value, hash, now, skew)
  }

  /** A stored entry is replayed exactly to equal hashes no later than the skew after it expires. */
  lemma ReplayedExactly(e: Entry, hash: string, now: int, skew: int)
    requires e.expiresAt.Some?
    ensures EvaluateExisting(e, hash, now, skew) == Success(e.response, true)
            <==> hash == e.hash && now <= e.expiresAt.value + skew
    ensures EvaluateExisting(e, hash, now, skew).Success? <==> hash == e.hash && now <= e.expiresAt.value + skew
  {
  }

  // ---- the specification: one call as one atomic operation ----

  datatype Request = Request(scope: string, key: string, hash: string)

  function Id(r: Request): string { ScopeKey(r.scope, r.key) }

  function Fresh(r: Request, response: string, now: int, ttl: int): Entry {
    Entry(r.hash, response, now, Some(now + ttl))
  }

  datatype Step = Step(entries: map<string, Entry>, outcome: Outcome)

  /** Replay what is stored; otherwise run the handler and store what it returned. */
  function AtomicCall(m: map<string, Entry>, cfg: Config, r: Request, now: int, handled: Option<string>): Step {
    if Id(r) in m then Step(m, EvaluateExisting(m[Id(r)], r.hash, now, cfg.skew))
    else match handled
      case None => Step(m, Error(HandlerFailed))
      case Some(response) => Step(m[Id(r) := Fresh(r, response, now, cfg.ttl)], Success(response, false))
  }

  function Swept(m: map<string, Entry>, now: int): map<string, Entry> {
    map k | k in m && !After(now, m[k].expiresAt, 0) :: m[k]
  }

  // ---- the backend ----

  class MemoryBackend {
    var entries: map<string, Entry>

    constructor ()
      ensures entries == map[]
    {
      entries := map[];
    }

    method Get(scope: string, key: string) returns (found: Option<Entry>)
      ensures found == (if ScopeKey(scope, key) in entries then Some(entries[ScopeKey(scope, key)]) else None)
    {
      var k := ScopeKey(scope, key);
      if k in entries {
        return Some(entries[k]);
      }
      return None;
    }

    method PutIfAbsent(scope: string, key: string, entry: Entry) returns (winner: Option<Entry>, stored: bool)
      modifies this
      ensures stored <==> ScopeKey(scope, key) !in old(entries)
      ensures stored ==> winner == None && entries == old(entries)[ScopeKey(scope, key) := entry]
      ensures !stored ==> winner == Some(old(entries)[ScopeKey(scope, key)]) && entries == old(entries)
    {
      var k := ScopeKey(scope, key);
      if k in entries {
        return Some(entries[k]), false;
      }
      entries := entries[k := entry];
      return None, true;
    }

    method Sweep(now: int)
      modifies this
      ensures entries == Swept(old(entries), now)
    {
      var all := entries;
      var todo := all.Keys;
      while todo != {}
        invariant todo <= all.Keys
        invariant entries == map k | k in all && (k in todo || !After(now, all[k].expiresAt, 0)) :: all[k]
        decreases todo
      {
        var k :| k in todo;
        if After(now, entries[k].expiresAt, 0) {
          entries := entries - {k};
        }
        todo := todo - {k};
      }
    }
  }

  // ---- the wrapper ----

  /** The idempotency key a request carries; the empty key when the field is absent. */
  datatype Extracted = Undecodable | NotAString | Key(key: string)

  /** The wrapper as one function of the entries; `ran` says whether the handler was run. */
  datatype Wrapped = Wrapped(entries: map<string, Entry>, outcome: Outcome, ran: bool)

  function Wrap(m: map<string, Entry>, cfg: Config, extracted: Extracted, scope: Option<string>,
                hash: Option<string>, now: int, handled: Option<string>): Wrapped
  {
    if extracted.Undecodable? then Wrapped(m, Error(BadRequest), false)
    else if extracted.NotAString? then Wrapped(m, Error(InvalidKey), false)
    else if extracted.key == "" && cfg.keyRequired then Wrapped(m, Error(MissingKey), false)
    else if extracted.key == "" then
      Wrapped(m, if handled.Some? then Success(handled.value, false) else Error(HandlerFailed), true)
    else if !ValidKey(extracted.key) then Wrapped(m, Error(InvalidKey), false)
    else if scope.None? then Wrapped(m, Error(NoScope), false)
    else if hash.None? then Wrapped(m, Error(NoHash), false)
    else
      var r := Request(scope.value, extracted.key, hash.value);
      var step := AtomicCall(m, cfg, r, now, handled);
      Wrapped(step.entries, step.outcome, Id(r) !in m)
  }

  class Store {
    const cfg: Config
    const backend: MemoryBackend

    constructor (cfg: Config, backend: MemoryBackend)
      requires ValidConfig(cfg)
      ensures this.cfg == cfg && this.backend == backend
    {
      this.cfg := cfg;
      this.backend := backend;
    }

    /** One call that no other call interrupts. */
    method Call(extracted: Extracted, scope: Option<string>, hash: Option<string>, now: int, handled: Option<string>)
      returns (outcome: Outcome, ran: bool)
      modifies backend
      ensures Wrapped(backend.entries, outcome, ran) == Wrap(old(backend.entries), cfg, extracted, scope, hash, now, handled)
      // what is refused, and why; the checks come in this order
      ensures outcome == Error(BadRequest) <==> extracted.Undecodable?
      ensures outcome == Error(MissingKey) <==> extracted == Key("") && cfg.keyRequired
      ensures outcome == Error(InvalidKey) <==>
                extracted.NotAString? ||
                (extracted.Key? && extracted.key != "" &&
                 (|extracted.key| < 16 || |extracted.key| > 255 ||
                  exists c :: c in extracted.key &&
                    !('A' <= c <= 'Z' || 'a' <= c <= 'z' || '0' <= c <= '9' || c == '_' || c == '.' || c == ':' || c == '-')))
      ensures outcome == Error(NoScope) <==> extracted.Key? && ValidKey(extracted.key) && scope.None?
      ensures outcome == Error(NoHash) <==> extracted.Key? && ValidKey(extracted.key) && scope.Some? && hash.None?
      ensures outcome.Error? && outcome.failure in {BadRequest, MissingKey, InvalidKey, NoScope, NoHash}
              ==> !ran && backend.entries == old(backend.entries)
      // without a key the handler runs and nothing is stored
      ensures extracted == Key("") && !cfg.keyRequired ==>
                && ran && backend.entries == old(backend.entries)
                && outcome == if handled.Some? then Success(handled.value, false) else Error(HandlerFailed)
      // a stored entry answers and no handler runs
      ensures extracted.Key? && ValidKey(extracted.key) && scope.Some? && hash.Some?
              && ScopeKey(scope.value, extracted.key) in old(backend.entries) ==>
                && !ran && backend.entries == old(backend.entries)
                && var e := old(backend.entries)[ScopeKey(scope.value, extracted.key)];
                && (outcome == Error(Expired) <==> e.expiresAt.Some? && now > e.expiresAt.value + cfg.skew)
                && (outcome == Error(Conflict) <==> outcome != Error(Expired) && e.hash != hash.value)
                && (outcome == Success(e.response, true) <==> outcome != Error(Expired) && e.hash == hash.value)
      // otherwise the handler runs, and what it returns is stored until the TTL is over
      ensures extracted.Key? && ValidKey(extracted.key) && scope.Some? && hash.Some?
              && ScopeKey(scope.value, extracted.key) !in old(backend.entries) ==>
                && ran
                && (handled.None? ==> outcome == Error(HandlerFailed) && backend.entries == old(backend.entries))
                && (handled.Some? ==>
                      && outcome == Success(handled.value, false)
                      && backend.entries == old(backend.entries)
                           [ScopeKey(scope.value, extracted.key) := Entry(hash.value, handled.value, now, Some(now + cfg.ttl))])
    {
      ran := false;
      match extracted
      case Undecodable => return Error(BadRequest), ran;
      case NotAString => return Error(InvalidKey), ran;
      case Key(key) =>
        if key == "" {
          if cfg.keyRequired {
            return Error(MissingKey), ran;
          }
          return if handled.Some? then Success(handled.value, false) else Error(HandlerFailed), true;
        }
        assert forall i :: 0 <= i < |key| ==> key[i] in key;
        if !ValidKey(key) {
          return Error(InvalidKey), ran;
        }
        if scope.None? {
          return Error(NoScope), ran;
        }
        if hash.None? {
          return Error(NoHash), ran;
        }
        var existing := backend.Get(scope.value, key);
        if existing.Some? {
          return EvaluateExisting(existing.value, hash.value, now, cfg.skew), ran;
        }
        ran := true;
        if handled.None? {
          return Error(HandlerFailed), ran;
        }
        var entry := Entry(hash.value, handled.value, now, Some(now + cfg.ttl));
        var winner, stored := backend.PutIfAbsent(scope.value, key, entry);
        return Settle(winner, stored, handled.value, hash.value, now, cfg.skew), ran;
    }
  }

  /**
   A retry after a sweep that read the clock at `swept`: if that was within the TTL, the retry runs no handler
   and is answered from the entry until the skew after the TTL; if it was later, the entry is gone and the retry
   runs the handler, however soon it comes.
   */
  lemma RetryReplays(m: map<string, Entry>, cfg: Config, key: string, scope: string, hash: string, now: int,
                     response: string, swept: int, later: int, handled: Option<string>, hash': string)
    requires ValidConfig(cfg) && ValidKey(key) && ScopeKey(scope, key) !in m
    requires now <= later
    ensures var first := Wrap(m, cfg, Key(key), Some(scope), Some(hash), now, Some(response));
            var second := Wrap(Swept(first.entries, swept), cfg, Key(key), Some(scope), Some(hash'), later, handled);
            && first.outcome == Success(response, false) && first.ran
            && (second.ran <==> swept > now + cfg.ttl)
            && (swept <= now + cfg.ttl ==>
                  && second.entries == Swept(first.entries, swept)
                  && second.outcome == if later > now + cfg.ttl + cfg.skew then Error(Expired)
                                       else if hash' == hash then Success(response, true)
                                       else Error(Conflict))
            && (swept > now + cfg.ttl ==>
                  second.outcome == if handled.Some? then Success(handled.value, false) else Error(HandlerFailed))
  {
  }
}
