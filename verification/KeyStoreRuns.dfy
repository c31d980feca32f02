/**
 Lookups running at the same time over one key store. Each step is one access to what they share, one
 clock reading, or one outcome of a registry call; cached entries may also vanish at any time.
 */
module KeyStoreRuns {
  import opened Text
  import opened KeyStore

  /** The first fetch of a lookup, or the one it makes because the key id is unknown. */
  datatype Mode = Initial | Refetch

  /** How a lookup came by an entry. */
  datatype Via = FreshAt(time: int) | StaleAt(time: int) | FromFetch(f: nat)

  datatype Result = Nothing | Got(entry: Entry, via: Via) | Panic

  /** Where a lookup stands. */
  datatype Pc =
    | Start
    | HasRead
    | Lock(mode: Mode)
    | Waiting(mode: Mode, f: nat)
    | TrySem(mode: Mode, f: nat)
    | Fetching(mode: Mode, f: nat)
    | Adding(mode: Mode, f: nat, e: Entry)
    | LeaderStale(f: nat, holds: bool)
    | WaiterStale
    | ReleaseSlot(mode: Mode, f: nat, holds: bool, r: Result)
    | WakeWaiters(mode: Mode, f: nat, r: Result)
    | Deregister(mode: Mode, f: nat, r: Result)
    | Have(mode: Mode, r: Result)
    | CheckAge(fetchedAt: int)
    | Returned(key: Option<SigningKey>, r: Result)
    | Panicked

  /** `goneBefore` is history: the fetches that were no longer registered when the lookup began. */
  datatype Lookup = Lookup(kid: string, url: string, cached: Option<Entry>, pc: Pc, goneBefore: set<nat>)

  /**
   Shared state, lookups, and a history: what the registry answered to which fetch, who holds slots, and
   which fetches are no longer registered.
   */
  datatype State = State(
    now: int,
    sh: Shared,
    lookups: map<nat, Lookup>,
    answers: map<nat, Answer>,
    holders: set<nat>,
    gone: set<nat>)

  /** How a registry call ends: an answer read at a time, an error, or a panic. */
  datatype Outcome = Answered(keys: map<string, SigningKey>, at: int) | Failed | Crashed

  datatype Action =
    | Tick(elapsed: nat)
    | Vanish(url: string)
    | Begin(l: nat, kid: string, url: string)
    | Take(l: nat, outcome: Outcome)

  function Init(now: int): State { State(now, Shared(map[], map[], map[], 0, 0), map[], map[], {}, {}) }

  predicate Over(pc: Pc) { pc.Returned? || pc.Panicked? }

  predicate Enabled(s: State, a: Action) {
    match a
    case Tick(_) => true
    case Vanish(_) => true
    case Begin(l, _, _) => l !in s.lookups
    case Take(l, o) =>
      && l in s.lookups
      && !Over(s.lookups[l].pc)
      && (s.lookups[l].pc.Waiting? ==> s.lookups[l].pc.f in s.sh.fetches && s.sh.fetches[s.lookups[l].pc.f].done)
      && (s.lookups[l].pc.Fetching? && o.Answered? ==> o.at <= s.now)
  }

  /** The fetch a lookup is the leader of. */
  function Leading(pc: Pc): Option<nat> {
    match pc
    case TrySem(_, f) => Some(f)
    case Fetching(_, f) => Some(f)
    case Adding(_, f, _) => Some(f)
    case LeaderStale(f, _) => Some(f)
    case ReleaseSlot(_, f, _, _) => Some(f)
    case WakeWaiters(_, f, _) => Some(f)
    case Deregister(_, f, _) => Some(f)
    case _ => None
  }

  /** Whether a lookup holds a slot of the semaphore. */
  predicate Holding(pc: Pc) {
    pc.Fetching? || pc.Adding? || (pc.LeaderStale? && pc.holds) || (pc.ReleaseSlot? && pc.holds)
  }

  function Becomes(s: State, l: nat, pc: Pc): State
    requires l in s.lookups
  {
    s.(lookups := s.lookups[l := s.lookups[l].(pc := pc)])
  }

  function StaleResult(cfg: Config, cached: Option<Entry>, now: int): Result {
    if ServesStale(cfg, cached, now) then Got(cached.value, StaleAt(now)) else Nothing
  }

  /** What a lookup does once it has the entry, or none, for its agent. */
  function Choose(kid: string, mode: Mode, r: Result): Pc {
    if !r.Got? || r.entry.keys.None? then Returned(None, r)
    else if kid in r.entry.keys.value then Returned(Some(r.entry.keys.value[kid]), r)
    else if mode.Initial? then CheckAge(r.entry.fetchedAt)
    else Returned(None, r)
  }

  /** The next step of a lookup. */
  function Advance(s: State, cfg: Config, l: nat, o: Outcome): State
    requires Ready(s, l)
  {
    var x := s.lookups[l];
    match x.pc
    case Start => s.(lookups := s.lookups[l := x.(cached := Cached(s.sh.cache, x.url), pc := HasRead)])
    case HasRead =>
      if x.cached.Some? && s.now < x.cached.value.expires
      then Becomes(s, l, Have(Initial, Got(x.cached.value, FreshAt(s.now))))
      else Becomes(s, l, Lock(Initial))
    case Lock(mode) =>
      if x.url in s.sh.inflight then Becomes(s, l, Waiting(mode, s.sh.inflight[x.url]))
      else Becomes(s, l, TrySem(mode, s.sh.nextFetch)).(sh := Registered(s.sh, x.url, l))
    case Waiting(mode, f) =>
      var g := s.sh.fetches[f];
      if !g.failed then Becomes(s, l, Have(mode, if g.entry.Some? then Got(g.entry.value, FromFetch(f)) else Nothing))
      else if mode.Initial? then Becomes(s, l, WaiterStale)
      else Becomes(s, l, Have(Refetch, Nothing))
    case TrySem(mode, f) =>
      if s.sh.slots < cfg.maxFetches
      then Becomes(s, l, Fetching(mode, f)).(sh := s.sh.(slots := s.sh.slots + 1), holders := s.holders + {l})
      else Becomes(s, l, Refused(mode, f, false)).(sh := Filled(s.sh, f, None, true))
    case Fetching(mode, f) =>
      (match o
       case Answered(keys, at) =>
         var a := Answer(x.url, keys, at);
         var e := EntryOf(cfg, f, a);
         Becomes(s, l, Adding(mode, f, e)).(sh := Filled(s.sh, f, Some(e), false), answers := s.answers[f := a])
       case Failed => Becomes(s, l, Refused(mode, f, true)).(sh := Filled(s.sh, f, None, true))
       case Crashed => Becomes(s, l, ReleaseSlot(mode, f, true, Panic)))
    case Adding(mode, f, e) =>
      Becomes(s, l, ReleaseSlot(mode, f, true, Got(e, FromFetch(f)))).(sh := s.sh.(cache := s.sh.cache[x.url := e]))
    case LeaderStale(f, holds) => Becomes(s, l, ReleaseSlot(Initial, f, holds, StaleResult(cfg, x.cached, s.now)))
    case WaiterStale => Becomes(s, l, Have(Initial, StaleResult(cfg, x.cached, s.now)))
    case ReleaseSlot(mode, f, holds, r) =>
      if holds
      then Becomes(s, l, WakeWaiters(mode, f, r)).(sh := s.sh.(slots := s.sh.slots - 1), holders := s.holders - {l})
      else Becomes(s, l, WakeWaiters(mode, f, r))
    case WakeWaiters(mode, f, r) => Becomes(s, l, Deregister(mode, f, r)).(sh := KeyStore.Finished(s.sh, f))
    case Deregister(mode, f, r) =>
      Becomes(s, l, if r.Panic? then Panicked else Have(mode, r))
        .(sh := s.sh.(inflight := s.sh.inflight - {x.url}), gone := s.gone + {f})
    case Have(mode, r) => Becomes(s, l, Choose(x.kid, mode, r))
    case CheckAge(fetchedAt) =>
      Becomes(s, l, if s.now - fetchedAt >= cfg.cooldown then Lock(Refetch) else Returned(None, Nothing))
    case _ => s
  }

  /** A leader without an answer: the first fetch asks for a stale entry, a refetch just leaves. */
  function Refused(mode: Mode, f: nat, holds: bool): Pc {
    if mode.Initial? then LeaderStale(f, holds) else ReleaseSlot(Refetch, f, holds, Nothing)
  }

  /** What the step of a lookup relies on: its fetch exists, and releasing a slot finds one taken. */
  predicate Ready(s: State, l: nat) {
    && l in s.lookups
    && (var pc := s.lookups[l].pc;
        && (Leading(pc).Some? ==> Leading(pc).value in s.sh.fetches)
        && (pc.Waiting? ==> pc.f in s.sh.fetches)
        && (Holding(pc) ==> s.sh.slots > 0))
  }

  function Next(s: State, cfg: Config, a: Action): State
    requires Enabled(s, a) && (a.Take? ==> Ready(s, a.l))
  {
    match a
    case Tick(d) => s.(now := s.now + d)
    case Vanish(url) => s.(sh := s.sh.(cache := s.sh.cache - {url}))
    case Begin(l, kid, url) => s.(lookups := s.lookups[l := Lookup(kid, url, None, Start, s.gone)])
    case Take(l, o) => Advance(s, cfg, l, o)
  }

  // ---- the invariant ----

  /** An entry for an agent is made from what the registry answered for that very agent. */
  ghost predicate Genuine(answers: map<nat, Answer>, cfg: Config, url: string, e: Entry) {
    e.source in answers && answers[e.source].url == url && e == EntryOf(cfg, e.source, answers[e.source])
  }

  ghost predicate GenuineIfAny(answers: map<nat, Answer>, cfg: Config, url: string, e: Option<Entry>) {
    e.Some? ==> Genuine(answers, cfg, url, e.value)
  }

  /** The reason a lookup had to accept an entry was sound when it accepted it. */
  ghost predicate Sound(cfg: Config, e: Entry, via: Via, goneBefore: set<nat>) {
    match via
    case FreshAt(t) => t < e.expires
    case StaleAt(t) => ServesStale(cfg, Some(e), t)
    case FromFetch(f) => e.source == f && f !in goneBefore
  }

  ghost predicate ResultRight(answers: map<nat, Answer>, cfg: Config, url: string, goneBefore: set<nat>, r: Result) {
    r.Got? ==> Genuine(answers, cfg, url, r.entry) && Sound(cfg, r.entry, r.via, goneBefore)
  }

  ghost predicate IsRegistered(sh: Shared, url: string, f: nat) { url in sh.inflight && sh.inflight[url] == f }

  /** A registered fetch is led by a lookup for the same agent. */
  ghost predicate RegistrationRight(sh: Shared, lookups: map<nat, Lookup>, url: string)
    requires url in sh.inflight
  {
    var f := sh.inflight[url];
    && f in sh.fetches && sh.fetches[f].url == url
    && sh.fetches[f].leader in lookups
    && lookups[sh.fetches[f].leader].url == url
    && Leading(lookups[sh.fetches[f].leader].pc) == Some(f)
  }

  /** A fetch stays registered until its waiters are released, and its entry is genuine. */
  ghost predicate FetchRight(sh: Shared, answers: map<nat, Answer>, cfg: Config, f: nat)
    requires f in sh.fetches
  {
    var g := sh.fetches[f];
    && f < sh.nextFetch
    && (!g.done ==> IsRegistered(sh, g.url, f))
    && (g.entry.Some? ==> Genuine(answers, cfg, g.url, g.entry.value) && g.entry.value.source == f)
  }

  /** A leader's fetch is registered and its own, and released exactly between its last two steps. */
  ghost predicate LeaderRight(sh: Shared, l: nat, x: Lookup) {
    Leading(x.pc).Some? ==>
      && IsRegistered(sh, x.url, Leading(x.pc).value)
      && Leading(x.pc).value in sh.fetches
      && sh.fetches[Leading(x.pc).value].leader == l
      && sh.fetches[Leading(x.pc).value].url == x.url
      && Leading(x.pc).value !in x.goneBefore
      && (sh.fetches[Leading(x.pc).value].done <==> x.pc.Deregister?)
  }

  /** The registry has not yet answered a fetch that is still to be made. */
  ghost predicate Unanswered(answers: map<nat, Answer>, x: Lookup) {
    (x.pc.TrySem? || x.pc.Fetching?) ==> x.pc.f !in answers
  }

  ghost predicate WaiterRight(sh: Shared, x: Lookup) {
    x.pc.Waiting? ==> x.pc.f in sh.fetches && sh.fetches[x.pc.f].url == x.url && x.pc.f !in x.goneBefore
  }

  ghost predicate DataRight(answers: map<nat, Answer>, cfg: Config, x: Lookup) {
    && GenuineIfAny(answers, cfg, x.url, x.cached)
    && Unanswered(answers, x)
    && (match x.pc
        case Adding(_, f, e) => Genuine(answers, cfg, x.url, e) && e.source == f
        case ReleaseSlot(_, _, _, r) => ResultRight(answers, cfg, x.url, x.goneBefore, r)
        case WakeWaiters(_, _, r) => ResultRight(answers, cfg, x.url, x.goneBefore, r)
        case Deregister(_, _, r) => ResultRight(answers, cfg, x.url, x.goneBefore, r)
        case Have(_, r) => ResultRight(answers, cfg, x.url, x.goneBefore, r)
        case Returned(key, r) =>
          && ResultRight(answers, cfg, x.url, x.goneBefore, r)
          && (key.Some? ==> r.Got? && r.entry.keys.Some? && x.kid in r.entry.keys.value
                            && key.value == r.entry.keys.value[x.kid])
        case _ => true)
  }

  ghost predicate SlotsRight(s: State, cfg: Config) {
    && s.sh.slots == |s.holders| <= cfg.maxFetches
    && s.holders <= s.lookups.Keys
    && (forall l <- s.lookups :: l in s.holders <==> Holding(s.lookups[l].pc))
  }

  ghost predicate LookupRight(sh: Shared, answers: map<nat, Answer>, cfg: Config, l: nat, x: Lookup) {
    LeaderRight(sh, l, x) && WaiterRight(sh, x) && DataRight(answers, cfg, x)
  }

  ghost predicate SharedRight(sh: Shared, answers: map<nat, Answer>, cfg: Config) {
    && (forall f <- sh.fetches :: FetchRight(sh, answers, cfg, f))
    && (forall url <- sh.cache :: Genuine(answers, cfg, url, sh.cache[url]))
    && (forall f <- answers :: f < sh.nextFetch)
  }

  /** Registered fetches are not gone, and what was gone before a lookup began is gone. */
  ghost predicate HistoryRight(s: State) {
    && (forall f <- s.gone :: f < s.sh.nextFetch)
    && (forall url <- s.sh.inflight :: s.sh.inflight[url] !in s.gone)
    && (forall l <- s.lookups :: s.lookups[l].goneBefore <= s.gone)
  }

  ghost predicate Inv(s: State, cfg: Config) {
    && SlotsRight(s, cfg)
    && HistoryRight(s)
    && SharedRight(s.sh, s.answers, cfg)
    && (forall url <- s.sh.inflight :: RegistrationRight(s.sh, s.lookups, url))
    && (forall l <- s.lookups :: LookupRight(s.sh, s.answers, cfg, l, s.lookups[l]))
  }

  /** No step finds its fetch gone or the semaphore empty: releasing a slot never blocks. */
  lemma StepsReady(s: State, cfg: Config, l: nat)
    requires Inv(s, cfg) && l in s.lookups
    ensures Ready(s, l)
  {
    assert LookupRight(s.sh, s.answers, cfg, l, s.lookups[l]);
    if Holding(s.lookups[l].pc) {
      assert {l} <= s.holders;
      assert s.holders != {};
    }
  }

  /** A step by which a lookup only moves on, touching nothing shared. */
  lemma MoveKeeps(s: State, cfg: Config, l: nat, x: Lookup)
    requires Inv(s, cfg) && l in s.lookups && x.url == s.lookups[l].url && x.goneBefore == s.lookups[l].goneBefore
    requires Leading(x.pc) == Leading(s.lookups[l].pc) && Holding(x.pc) == Holding(s.lookups[l].pc)
    requires x.pc.Deregister? == s.lookups[l].pc.Deregister?
    requires WaiterRight(s.sh, x) && DataRight(s.answers, cfg, x)
    ensures Inv(s.(lookups := s.lookups[l := x]), cfg)
  {
    hide SharedRight, Holding, DataRight, WaiterRight;
    var t := s.(lookups := s.lookups[l := x]);
    assert LookupRight(s.sh, s.answers, cfg, l, s.lookups[l]);
    forall url <- t.sh.inflight ensures RegistrationRight(t.sh, t.lookups, url) {
      assert RegistrationRight(s.sh, s.lookups, url);
    }
    forall d <- t.lookups ensures LookupRight(t.sh, t.answers, cfg, d, t.lookups[d]) {
      assert d != l ==> LookupRight(s.sh, s.answers, cfg, d, s.lookups[d]);
    }
  }

  /** All fetches but `f` are what and where they were, and `f` keeps its agent and leader. */
  ghost predicate OnlyTouches(a: Shared, b: Shared, f: nat) {
    && (forall g <- a.fetches :: g in b.fetches && (g != f ==> b.fetches[g] == a.fetches[g]))
    && (f in a.fetches ==> b.fetches[f].url == a.fetches[f].url && b.fetches[f].leader == a.fetches[f].leader)
    && (forall url <- a.inflight :: a.inflight[url] != f ==> IsRegistered(b, url, a.inflight[url]))
  }

  /** At most the answer to `f` is new. */
  ghost predicate OnlyAnswers(a: map<nat, Answer>, b: map<nat, Answer>, f: nat) {
    b == a || (f !in a && b.Keys == a.Keys + {f} && forall g <- a :: b[g] == a[g])
  }

  lemma DataKept(a: map<nat, Answer>, b: map<nat, Answer>, cfg: Config, f: nat, x: Lookup)
    requires DataRight(a, cfg, x) && OnlyAnswers(a, b, f)
    requires x.pc.TrySem? || x.pc.Fetching? ==> x.pc.f != f
    ensures DataRight(b, cfg, x)
  {
    hide EntryOf, Sound;
  }

  /** What a leader does to its own fetch leaves every other lookup as it was. */
  lemma OtherKept(s: State, cfg: Config, sh: Shared, answers: map<nat, Answer>, f: nat, d: nat)
    requires Inv(s, cfg) && d in s.lookups && Leading(s.lookups[d].pc) != Some(f)
    requires OnlyTouches(s.sh, sh, f) && OnlyAnswers(s.answers, answers, f)
    ensures LookupRight(sh, answers, cfg, d, s.lookups[d])
  {
    var x := s.lookups[d];
    assert LookupRight(s.sh, s.answers, cfg, d, x);
    DataKept(s.answers, answers, cfg, f, x);
    hide DataRight;
  }

  /** Only its leader leads a fetch. */
  lemma LeadsAlone(s: State, cfg: Config, l: nat, d: nat)
    requires Inv(s, cfg) && l in s.lookups && d in s.lookups && l != d
    requires Leading(s.lookups[l].pc).Some?
    ensures Leading(s.lookups[d].pc) != Leading(s.lookups[l].pc)
    ensures Leading(s.lookups[d].pc).Some? ==> s.lookups[d].url != s.lookups[l].url
  {
    hide DataRight;
    assert LookupRight(s.sh, s.answers, cfg, l, s.lookups[l]);
    assert LookupRight(s.sh, s.answers, cfg, d, s.lookups[d]);
  }

  /** Every fetch a lookup leads or waits for has already been registered. */
  lemma LedBeforeNext(s: State, cfg: Config, d: nat)
    requires Inv(s, cfg) && d in s.lookups
    ensures Leading(s.lookups[d].pc) != Some(s.sh.nextFetch)
  {
    hide DataRight;
    var x := s.lookups[d];
    assert LookupRight(s.sh, s.answers, cfg, d, x);
    if Leading(x.pc).Some? {
      assert FetchRight(s.sh, s.answers, cfg, Leading(x.pc).value);
    }
  }

  /** The lookup that takes the step leads `f`, or registers it now. */
  ghost predicate Entitled(s: State, l: nat, f: nat)
    requires l in s.lookups
  {
    var x := s.lookups[l];
    Leading(x.pc) == Some(f) || (Leading(x.pc) == None && f == s.sh.nextFetch && x.url !in s.sh.inflight)
  }

  /** The registrations after the step: those of before, and `f` for as long as it is led. */
  ghost predicate RegistrationsFollow(s: State, t: State, l: nat, f: nat)
    requires l in s.lookups && l in t.lookups
  {
    forall url <- t.sh.inflight ::
      if t.sh.inflight[url] == f then url == s.lookups[l].url && Leading(t.lookups[l].pc) == Some(f)
      else IsRegistered(s.sh, url, t.sh.inflight[url])
  }

  lemma LeaderStepKeeps(s: State, cfg: Config, t: State, l: nat, f: nat)
    requires Inv(s, cfg) && l in s.lookups && Entitled(s, l, f)
    requires l in t.lookups && t.lookups == s.lookups[l := t.lookups[l]] && t.lookups[l].url == s.lookups[l].url
    requires OnlyTouches(s.sh, t.sh, f) && OnlyAnswers(s.answers, t.answers, f)
    requires RegistrationsFollow(s, t, l, f)
    requires SharedRight(t.sh, t.answers, cfg) && SlotsRight(t, cfg) && HistoryRight(t)
    requires LookupRight(t.sh, t.answers, cfg, l, t.lookups[l])
    ensures Inv(t, cfg)
  {
    hide SharedRight, DataRight, OnlyAnswers, WaiterRight, SlotsRight, HistoryRight;
    forall url <- t.sh.inflight ensures RegistrationRight(t.sh, t.lookups, url) {
      LeaderStepRegistered(s, cfg, t, l, f, url);
    }
    forall d <- t.lookups ensures LookupRight(t.sh, t.answers, cfg, d, t.lookups[d]) {
      if d != l {
        NotLedByOthers(s, cfg, l, f, d);
        OtherKept(s, cfg, t.sh, t.answers, f, d);
      }
    }
  }

  lemma NotLedByOthers(s: State, cfg: Config, l: nat, f: nat, d: nat)
    requires Inv(s, cfg) && l in s.lookups && Entitled(s, l, f) && d in s.lookups && d != l
    ensures Leading(s.lookups[d].pc) != Some(f)
  {
    hide Inv;
    if Leading(s.lookups[l].pc).Some? {
      LeadsAlone(s, cfg, l, d);
    } else {
      LedBeforeNext(s, cfg, d);
    }
  }

  lemma LeaderStepRegistered(s: State, cfg: Config, t: State, l: nat, f: nat, url: string)
    requires Inv(s, cfg) && l in s.lookups && Entitled(s, l, f)
    requires l in t.lookups && t.lookups == s.lookups[l := t.lookups[l]] && t.lookups[l].url == s.lookups[l].url
    requires OnlyTouches(s.sh, t.sh, f) && RegistrationsFollow(s, t, l, f)
    requires LeaderRight(t.sh, l, t.lookups[l])
    requires url in t.sh.inflight
    ensures RegistrationRight(t.sh, t.lookups, url)
  {
    if t.sh.inflight[url] != f {
      assert RegistrationRight(s.sh, s.lookups, url);
    }
  }

  /** What the invariant says about one lookup and about what all share. */
  lemma Facts(s: State, cfg: Config, l: nat)
    requires Inv(s, cfg) && l in s.lookups
    ensures SharedRight(s.sh, s.answers, cfg) && SlotsRight(s, cfg) && HistoryRight(s)
    ensures LeaderRight(s.sh, l, s.lookups[l]) && WaiterRight(s.sh, s.lookups[l])
    ensures DataRight(s.answers, cfg, s.lookups[l])
  {
    assert LookupRight(s.sh, s.answers, cfg, l, s.lookups[l]);
  }

  lemma FetchFacts(s: State, cfg: Config, f: nat)
    requires Inv(s, cfg) && f in s.sh.fetches
    ensures FetchRight(s.sh, s.answers, cfg, f)
  {
  }

  lemma RegistrationFacts(s: State, cfg: Config, url: string)
    requires Inv(s, cfg) && url in s.sh.inflight
    ensures RegistrationRight(s.sh, s.lookups, url)
  {
  }

  /** Moving one lookup, and a slot with it where the step takes or frees one. */
  lemma SlotsFollow(s: State, cfg: Config, t: State, l: nat)
    requires SlotsRight(s, cfg) && l in s.lookups && l in t.lookups && t.lookups == s.lookups[l := t.lookups[l]]
    requires var was, will := Holding(s.lookups[l].pc), Holding(t.lookups[l].pc);
             if was == will then t.holders == s.holders && t.sh.slots == s.sh.slots
             else if will then t.holders == s.holders + {l} && t.sh.slots == s.sh.slots + 1 <= cfg.maxFetches
             else t.holders == s.holders - {l} && t.sh.slots == s.sh.slots - 1
    ensures SlotsRight(t, cfg)
  {
    hide Holding;
  }

  // ---- each step of a leader ----

  /** Filling in a fetch, with a genuine entry or none, keeps what is shared in order. */
  lemma FilledShared(sh: Shared, answers: map<nat, Answer>, cfg: Config, f: nat, e: Option<Entry>, failed: bool)
    requires SharedRight(sh, answers, cfg) && f in sh.fetches
    requires GenuineIfAny(answers, cfg, sh.fetches[f].url, e) && (e.Some? ==> e.value.source == f)
    ensures SharedRight(Filled(sh, f, e, failed), answers, cfg)
  {
    hide Genuine;
    var sh' := Filled(sh, f, e, failed);
    forall g <- sh'.fetches ensures FetchRight(sh', answers, cfg, g) {
      assert FetchRight(sh, answers, cfg, g);
    }
  }

  lemma AnsweredShared(sh: Shared, a: map<nat, Answer>, b: map<nat, Answer>, cfg: Config, f: nat)
    requires SharedRight(sh, a, cfg) && OnlyAnswers(a, b, f) && f in sh.fetches
    ensures SharedRight(sh, b, cfg)
  {
    hide EntryOf;
    forall g <- sh.fetches ensures FetchRight(sh, b, cfg, g) {
      assert FetchRight(sh, a, cfg, g);
    }
    assert FetchRight(sh, a, cfg, f);
  }

  lemma RegisteredShared(sh: Shared, answers: map<nat, Answer>, cfg: Config, url: string, l: nat)
    requires SharedRight(sh, answers, cfg) && url !in sh.inflight && sh.nextFetch !in sh.fetches
    ensures SharedRight(Registered(sh, url, l), answers, cfg)
  {
    hide Genuine;
    var sh' := Registered(sh, url, l);
    forall g <- sh'.fetches ensures FetchRight(sh', answers, cfg, g) {
      assert g in sh.fetches ==> FetchRight(sh, answers, cfg, g);
    }
  }

  lemma AddedShared(sh: Shared, answers: map<nat, Answer>, cfg: Config, url: string, e: Entry)
    requires SharedRight(sh, answers, cfg) && Genuine(answers, cfg, url, e)
    ensures SharedRight(sh.(cache := sh.cache[url := e]), answers, cfg)
  {
    hide Genuine;
    var sh' := sh.(cache := sh.cache[url := e]);
    forall g <- sh'.fetches ensures FetchRight(sh', answers, cfg, g) {
      assert FetchRight(sh, answers, cfg, g);
    }
  }

  lemma WokenShared(sh: Shared, answers: map<nat, Answer>, cfg: Config, f: nat)
    requires SharedRight(sh, answers, cfg) && f in sh.fetches
    ensures SharedRight(KeyStore.Finished(sh, f), answers, cfg)
  {
    hide Genuine;
    var sh' := KeyStore.Finished(sh, f);
    forall g <- sh'.fetches ensures FetchRight(sh', answers, cfg, g) {
      assert FetchRight(sh, answers, cfg, g);
    }
  }

  lemma DeregisteredShared(sh: Shared, answers: map<nat, Answer>, cfg: Config, url: string)
    requires SharedRight(sh, answers, cfg)
    requires url in sh.inflight && sh.inflight[url] in sh.fetches && sh.fetches[sh.inflight[url]].done
    ensures SharedRight(sh.(inflight := sh.inflight - {url}), answers, cfg)
  {
    hide Genuine;
    var sh' := sh.(inflight := sh.inflight - {url});
    forall g <- sh'.fetches ensures FetchRight(sh', answers, cfg, g) {
      assert FetchRight(sh, answers, cfg, g);
    }
  }

  /** The fetch a lookup leads is registered for no other agent. */
  lemma RegisteredOnce(s: State, cfg: Config, l: nat)
    requires Inv(s, cfg) && l in s.lookups && Leading(s.lookups[l].pc).Some?
    ensures forall url <- s.sh.inflight :: s.sh.inflight[url] == Leading(s.lookups[l].pc).value ==> url == s.lookups[l].url
  {
    assert LookupRight(s.sh, s.answers, cfg, l, s.lookups[l]);
    forall url <- s.sh.inflight | s.sh.inflight[url] == Leading(s.lookups[l].pc).value ensures url == s.lookups[l].url {
      assert RegistrationRight(s.sh, s.lookups, url);
    }
  }

  lemma EntryGenuine(answers: map<nat, Answer>, cfg: Config, f: nat)
    requires f in answers
    ensures var e := EntryOf(cfg, f, answers[f]); e.source == f && Genuine(answers, cfg, answers[f].url, e)
  {
  }

  lemma AnsweredData(answers: map<nat, Answer>, cfg: Config, x: Lookup, a: Answer)
    requires DataRight(answers, cfg, x) && x.pc.Fetching? && a.url == x.url
    ensures var f := x.pc.f;
            DataRight(answers[f := a], cfg, x.(pc := Adding(x.pc.mode, f, EntryOf(cfg, f, a))))
  {
    hide EntryOf, Sound;
    var f := x.pc.f;
    EntryGenuine(answers[f := a], cfg, f);
    DataKept(answers, answers[f := a], cfg, f, x.(pc := Start));
  }

  lemma AnswerKeeps(s: State, cfg: Config, l: nat, keys: map<string, SigningKey>, at: int)
    requires Inv(s, cfg) && l in s.lookups && s.lookups[l].pc.Fetching?
    requires Ready(s, l)
    ensures Inv(Advance(s, cfg, l, Answered(keys, at)), cfg)
  {
    hide Inv, Genuine, SharedRight, SlotsRight, ResultRight, EntryOf;
    var x := s.lookups[l];
    var f := x.pc.f;
    var a := Answer(x.url, keys, at);
    var t := Advance(s, cfg, l, Answered(keys, at));
    Facts(s, cfg, l);
    RegisteredOnce(s, cfg, l);
    SlotsFollow(s, cfg, t, l);
    AnsweredData(s.answers, cfg, x, a);
    AnsweredShared(s.sh, s.answers, t.answers, cfg, f);
    EntryGenuine(t.answers, cfg, f);
    FilledShared(s.sh, t.answers, cfg, f, Some(EntryOf(cfg, f, a)), false);
    hide DataRight;
    LeaderStepKeeps(s, cfg, t, l, f);
  }

  lemma LeadKeeps(s: State, cfg: Config, l: nat)
    requires Inv(s, cfg) && l in s.lookups && s.lookups[l].pc.Lock? && s.lookups[l].url !in s.sh.inflight
    ensures Inv(Advance(s, cfg, l, Failed), cfg)
  {
    hide Inv, Genuine, SharedRight, SlotsRight, ResultRight;
    var t := Advance(s, cfg, l, Failed);
    Facts(s, cfg, l);
    SlotsFollow(s, cfg, t, l);
    FreshFetch(s, cfg);
    RegisteredShared(s.sh, s.answers, cfg, s.lookups[l].url, l);
    LeaderStepKeeps(s, cfg, t, l, s.sh.nextFetch);
  }

  lemma FreshFetch(s: State, cfg: Config)
    requires Inv(s, cfg)
    ensures s.sh.nextFetch !in s.sh.fetches && s.sh.nextFetch !in s.answers
    ensures forall url <- s.sh.inflight :: s.sh.inflight[url] != s.sh.nextFetch
  {
    forall f <- s.sh.fetches ensures f != s.sh.nextFetch {
      assert FetchRight(s.sh, s.answers, cfg, f);
    }
    forall url <- s.sh.inflight ensures s.sh.inflight[url] != s.sh.nextFetch {
      assert RegistrationRight(s.sh, s.lookups, url);
      assert FetchRight(s.sh, s.answers, cfg, s.sh.inflight[url]);
    }
  }

  lemma TryKeeps(s: State, cfg: Config, l: nat)
    requires Inv(s, cfg) && l in s.lookups && s.lookups[l].pc.TrySem?
    requires Ready(s, l)
    ensures Inv(Advance(s, cfg, l, Failed), cfg)
  {
    hide Inv, Genuine, SharedRight, SlotsRight;
    var x := s.lookups[l];
    var t := Advance(s, cfg, l, Failed);
    Facts(s, cfg, l);
    RegisteredOnce(s, cfg, l);
    SlotsFollow(s, cfg, t, l);
    if s.sh.slots < cfg.maxFetches {
      SlotsShared(s.sh, t.sh.slots, s.answers, cfg);
    } else {
      FilledShared(s.sh, s.answers, cfg, x.pc.f, None, true);
    }
    LeaderStepKeeps(s, cfg, t, l, x.pc.f);
  }

  lemma SlotsShared(sh: Shared, slots: nat, answers: map<nat, Answer>, cfg: Config)
    requires SharedRight(sh, answers, cfg)
    ensures SharedRight(sh.(slots := slots), answers, cfg)
  {
    hide Genuine;
    var sh' := sh.(slots := slots);
    forall g <- sh'.fetches ensures FetchRight(sh', answers, cfg, g) {
      assert FetchRight(sh, answers, cfg, g);
    }
  }

  lemma FailKeeps(s: State, cfg: Config, l: nat)
    requires Inv(s, cfg) && l in s.lookups && s.lookups[l].pc.Fetching?
    requires Ready(s, l)
    ensures Inv(Advance(s, cfg, l, Failed), cfg)
  {
    hide Inv, Genuine, SharedRight, SlotsRight;
    var x := s.lookups[l];
    var t := Advance(s, cfg, l, Failed);
    Facts(s, cfg, l);
    RegisteredOnce(s, cfg, l);
    SlotsFollow(s, cfg, t, l);
    FilledShared(s.sh, s.answers, cfg, x.pc.f, None, true);
    LeaderStepKeeps(s, cfg, t, l, x.pc.f);
  }

  lemma CrashKeeps(s: State, cfg: Config, l: nat)
    requires Inv(s, cfg) && l in s.lookups && s.lookups[l].pc.Fetching?
    requires Ready(s, l)
    ensures Inv(Advance(s, cfg, l, Crashed), cfg)
  {
    hide Inv, Genuine, SharedRight, SlotsRight;
    Facts(s, cfg, l);
    MoveKeeps(s, cfg, l, Advance(s, cfg, l, Crashed).lookups[l]);
  }

  lemma AddKeeps(s: State, cfg: Config, l: nat)
    requires Inv(s, cfg) && l in s.lookups && s.lookups[l].pc.Adding?
    requires Ready(s, l)
    ensures Inv(Advance(s, cfg, l, Failed), cfg)
  {
    hide Inv, Genuine, SharedRight, SlotsRight;
    var x := s.lookups[l];
    var t := Advance(s, cfg, l, Failed);
    Facts(s, cfg, l);
    RegisteredOnce(s, cfg, l);
    SlotsFollow(s, cfg, t, l);
    AddedShared(s.sh, s.answers, cfg, x.url, x.pc.e);
    LeaderStepKeeps(s, cfg, t, l, x.pc.f);
  }

  lemma ReleaseKeeps(s: State, cfg: Config, l: nat)
    requires Inv(s, cfg) && l in s.lookups && s.lookups[l].pc.ReleaseSlot?
    requires Ready(s, l)
    ensures Inv(Advance(s, cfg, l, Failed), cfg)
  {
    hide Inv, Genuine, SharedRight, SlotsRight, ResultRight;
    var x := s.lookups[l];
    var t := Advance(s, cfg, l, Failed);
    Facts(s, cfg, l);
    RegisteredOnce(s, cfg, l);
    SlotsFollow(s, cfg, t, l);
    SlotsShared(s.sh, t.sh.slots, s.answers, cfg);
    LeaderStepKeeps(s, cfg, t, l, x.pc.f);
  }

  lemma WakeKeeps(s: State, cfg: Config, l: nat)
    requires Inv(s, cfg) && l in s.lookups && s.lookups[l].pc.WakeWaiters?
    requires Ready(s, l)
    ensures Inv(Advance(s, cfg, l, Failed), cfg)
  {
    hide Inv, Genuine, SharedRight, SlotsRight, ResultRight;
    var x := s.lookups[l];
    var t := Advance(s, cfg, l, Failed);
    Facts(s, cfg, l);
    RegisteredOnce(s, cfg, l);
    SlotsFollow(s, cfg, t, l);
    WokenShared(s.sh, s.answers, cfg, x.pc.f);
    LeaderStepKeeps(s, cfg, t, l, x.pc.f);
  }

  lemma DeregisterKeeps(s: State, cfg: Config, l: nat)
    requires Inv(s, cfg) && l in s.lookups && s.lookups[l].pc.Deregister?
    requires Ready(s, l)
    ensures Inv(Advance(s, cfg, l, Failed), cfg)
  {
    hide Inv, Genuine, SharedRight, SlotsRight, ResultRight;
    var x := s.lookups[l];
    var t := Advance(s, cfg, l, Failed);
    Facts(s, cfg, l);
    RegisteredOnce(s, cfg, l);
    SlotsFollow(s, cfg, t, l);
    DeregisteredShared(s.sh, s.answers, cfg, x.url);
    FetchFacts(s, cfg, x.pc.f);
    LeaderStepKeeps(s, cfg, t, l, x.pc.f);
  }

  // ---- each step of a lookup that leads nothing, or only waits for the time ----

  lemma ReadKeeps(s: State, cfg: Config, l: nat)
    requires Inv(s, cfg) && l in s.lookups && (s.lookups[l].pc.Start? || s.lookups[l].pc.HasRead?)
    ensures Inv(Advance(s, cfg, l, Failed), cfg)
  {
    hide Inv, Genuine, SharedRight, SlotsRight;
    var t := Advance(s, cfg, l, Failed);
    Facts(s, cfg, l);
    MoveKeeps(s, cfg, l, t.lookups[l]);
  }

  lemma JoinKeeps(s: State, cfg: Config, l: nat)
    requires Inv(s, cfg) && l in s.lookups && s.lookups[l].pc.Lock? && s.lookups[l].url in s.sh.inflight
    ensures Inv(Advance(s, cfg, l, Failed), cfg)
  {
    hide Inv, Genuine, SharedRight, SlotsRight;
    var x := s.lookups[l];
    Facts(s, cfg, l);
    RegistrationFacts(s, cfg, x.url);
    MoveKeeps(s, cfg, l, Advance(s, cfg, l, Failed).lookups[l]);
  }

  lemma WaitKeeps(s: State, cfg: Config, l: nat)
    requires Inv(s, cfg) && l in s.lookups && s.lookups[l].pc.Waiting? && Ready(s, l)
    ensures Inv(Advance(s, cfg, l, Failed), cfg)
  {
    hide Inv, Genuine, SharedRight, SlotsRight;
    var x := s.lookups[l];
    Facts(s, cfg, l);
    FetchFacts(s, cfg, x.pc.f);
    MoveKeeps(s, cfg, l, Advance(s, cfg, l, Failed).lookups[l]);
  }

  lemma StaleKeeps(s: State, cfg: Config, l: nat)
    requires Inv(s, cfg) && l in s.lookups && (s.lookups[l].pc.LeaderStale? || s.lookups[l].pc.WaiterStale?) && Ready(s, l)
    ensures Inv(Advance(s, cfg, l, Failed), cfg)
  {
    hide Inv, Genuine, SharedRight, SlotsRight;
    Facts(s, cfg, l);
    MoveKeeps(s, cfg, l, Advance(s, cfg, l, Failed).lookups[l]);
  }

  lemma ChooseKeeps(s: State, cfg: Config, l: nat)
    requires Inv(s, cfg) && l in s.lookups && (s.lookups[l].pc.Have? || s.lookups[l].pc.CheckAge?)
    ensures Inv(Advance(s, cfg, l, Failed), cfg)
  {
    hide Inv, Genuine, SharedRight, SlotsRight;
    Facts(s, cfg, l);
    MoveKeeps(s, cfg, l, Advance(s, cfg, l, Failed).lookups[l]);
  }

  lemma VanishKeeps(s: State, cfg: Config, url: string)
    requires Inv(s, cfg)
    ensures Inv(Next(s, cfg, Vanish(url)), cfg)
  {
    hide Genuine, DataRight;
    var t := Next(s, cfg, Vanish(url));
    forall f <- t.sh.fetches ensures FetchRight(t.sh, t.answers, cfg, f) {
      assert FetchRight(s.sh, s.answers, cfg, f);
    }
    forall u <- t.sh.inflight ensures RegistrationRight(t.sh, t.lookups, u) {
      assert RegistrationRight(s.sh, s.lookups, u);
    }
    forall d <- t.lookups ensures LookupRight(t.sh, t.answers, cfg, d, t.lookups[d]) {
      assert LookupRight(s.sh, s.answers, cfg, d, s.lookups[d]);
    }
  }

  lemma BeginKeeps(s: State, cfg: Config, l: nat, kid: string, url: string)
    requires Inv(s, cfg) && l !in s.lookups
    ensures Inv(Next(s, cfg, Begin(l, kid, url)), cfg)
  {
    hide Genuine, SharedRight;
    var t := Next(s, cfg, Begin(l, kid, url));
    forall u <- t.sh.inflight ensures RegistrationRight(t.sh, t.lookups, u) {
      assert RegistrationRight(s.sh, s.lookups, u);
    }
    forall d <- t.lookups ensures LookupRight(t.sh, t.answers, cfg, d, t.lookups[d]) {
      assert d != l ==> LookupRight(s.sh, s.answers, cfg, d, s.lookups[d]);
    }
  }

  lemma TickKeeps(s: State, cfg: Config, d: nat)
    requires Inv(s, cfg)
    ensures Inv(Next(s, cfg, Tick(d)), cfg)
  {
    hide LookupRight, RegistrationRight, SharedRight;
  }

  lemma AdvanceKeeps(s: State, cfg: Config, l: nat, o: Outcome)
    requires Inv(s, cfg) && Enabled(s, Take(l, o)) && Ready(s, l)
    ensures Inv(Advance(s, cfg, l, o), cfg)
  {
    hide Inv;
    match s.lookups[l].pc
    case Start => ReadKeeps(s, cfg, l);
    case HasRead => ReadKeeps(s, cfg, l);
    case Lock(_) =>
      if s.lookups[l].url in s.sh.inflight {
        JoinKeeps(s, cfg, l);
      } else {
        LeadKeeps(s, cfg, l);
      }
    case Waiting(_, _) => WaitKeeps(s, cfg, l);
    case TrySem(_, _) => TryKeeps(s, cfg, l);
    case Fetching(_, _) =>
      match o {
        case Answered(keys, at) => AnswerKeeps(s, cfg, l, keys, at);
        case Failed => FailKeeps(s, cfg, l);
        case Crashed => CrashKeeps(s, cfg, l);
      }
    case Adding(_, _, _) => AddKeeps(s, cfg, l);
    case LeaderStale(_, _) => StaleKeeps(s, cfg, l);
    case WaiterStale => StaleKeeps(s, cfg, l);
    case ReleaseSlot(_, _, _, _) => ReleaseKeeps(s, cfg, l);
    case WakeWaiters(_, _, _) => WakeKeeps(s, cfg, l);
    case Deregister(_, _, _) => DeregisterKeeps(s, cfg, l);
    case Have(_, _) => ChooseKeeps(s, cfg, l);
    case CheckAge(_) => ChooseKeeps(s, cfg, l);
  }

  /** Every step of every interleaving keeps the invariant, and finds what it relies on. */
  lemma StepKeeps(s: State, cfg: Config, a: Action)
    requires Inv(s, cfg) && Enabled(s, a)
    ensures a.Take? ==> Ready(s, a.l)
    ensures Inv(Next(s, cfg, a), cfg)
  {
    hide Inv, Ready;
    match a
    case Tick(d) => TickKeeps(s, cfg, d);
    case Vanish(url) => VanishKeeps(s, cfg, url);
    case Begin(l, kid, url) => BeginKeeps(s, cfg, l, kid, url);
    case Take(l, o) =>
      StepsReady(s, cfg, l);
      AdvanceKeeps(s, cfg, l, o);
  }

  // ---- runs ----

  /** A run: its states and the actions between them. */
  ghost predicate Run(cfg: Config, states: seq<State>, actions: seq<Action>) {
    && |states| == |actions| + 1
    && (exists now :: states[0] == Init(now))
    && forall i: nat | i < |actions| :: Stepped(cfg, states[i], actions[i], states[i + 1])
  }

  ghost predicate Stepped(cfg: Config, s: State, a: Action, t: State) {
    Enabled(s, a) && (a.Take? ==> Ready(s, a.l)) && t == Next(s, cfg, a)
  }

  lemma {:induction false} RunKeeps(cfg: Config, states: seq<State>, actions: seq<Action>, n: nat)
    requires Run(cfg, states, actions) && n < |states|
    ensures Inv(states[n], cfg)
  {
    hide Inv, Next, Ready;
    if n == 0 {
      StartsRight(cfg, states[0]);
    } else {
      RunKeeps(cfg, states, actions, n - 1);
      assert Stepped(cfg, states[n - 1], actions[n - 1], states[n - 1 + 1]);
      StepKeeps(states[n - 1], cfg, actions[n - 1]);
    }
  }

  lemma StartsRight(cfg: Config, s: State)
    requires exists now :: s == Init(now)
    ensures Inv(s, cfg)
  {
  }

  /** In every run an agent has at most one leader, and it is the leader of the registered fetch. */
  lemma OneLeaderPerAgent(cfg: Config, states: seq<State>, actions: seq<Action>, n: nat, l: nat, d: nat)
    requires Run(cfg, states, actions) && n < |states| && l in states[n].lookups && d in states[n].lookups
    requires Leading(states[n].lookups[l].pc).Some? && Leading(states[n].lookups[d].pc).Some?
    requires states[n].lookups[l].url == states[n].lookups[d].url
    ensures l == d
    ensures IsRegistered(states[n].sh, states[n].lookups[l].url, Leading(states[n].lookups[l].pc).value)
  {
    RunKeeps(cfg, states, actions, n);
    if l != d {
      LeadsAlone(states[n], cfg, l, d);
    }
    Facts(states[n], cfg, l);
  }

  /** In every run the slots taken are exactly those of the running fetches, and never too many. */
  lemma SlotsBounded(cfg: Config, states: seq<State>, actions: seq<Action>, n: nat)
    requires Run(cfg, states, actions) && n < |states|
    ensures var s := states[n];
            var running := set l | l in s.lookups && Holding(s.lookups[l].pc);
            s.sh.slots == |running| <= cfg.maxFetches
  {
    RunKeeps(cfg, states, actions, n);
    var s := states[n];
    assert s.holders == set l | l in s.lookups && Holding(s.lookups[l].pc);
  }

  /**
   A leader gives up what it holds exactly once: at its slot, if it took one, is a slot to give back; the
   waiters it releases are still waiting; the registration it removes is its own.
   */
  lemma LeavesOnce(cfg: Config, states: seq<State>, actions: seq<Action>, n: nat, l: nat)
    requires Run(cfg, states, actions) && n < |states| && l in states[n].lookups
    ensures var s := states[n];
            var x := s.lookups[l];
            && (x.pc.ReleaseSlot? && x.pc.holds ==> s.sh.slots > 0 && l in s.holders)
            && (x.pc.WakeWaiters? ==> x.pc.f in s.sh.fetches && !s.sh.fetches[x.pc.f].done && l !in s.holders)
            && (x.pc.Deregister? ==> x.pc.f in s.sh.fetches && s.sh.fetches[x.pc.f].done && IsRegistered(s.sh, x.url, x.pc.f))
  {
    RunKeeps(cfg, states, actions, n);
    StepsReady(states[n], cfg, l);
    Facts(states[n], cfg, l);
  }

  lemma OnlyAddingChanges(s: State, cfg: Config, l: nat, o: Outcome)
    requires Enabled(s, Take(l, o)) && Ready(s, l)
    ensures var x := s.lookups[l];
            Advance(s, cfg, l, o).sh.cache == if x.pc.Adding? then s.sh.cache[x.url := x.pc.e] else s.sh.cache
  {
    hide EntryOf, ServesStale;
  }

  /** The cache changes only where an entry vanishes or a leader adds what the registry answered it. */
  lemma OnlyAnswersEnterTheCache(s: State, cfg: Config, a: Action)
    requires Inv(s, cfg) && Enabled(s, a) && (a.Take? ==> Ready(s, a.l))
    requires Next(s, cfg, a).sh.cache != s.sh.cache && !a.Vanish?
    ensures a.Take? && s.lookups[a.l].pc.Adding?
    ensures var x := s.lookups[a.l];
            && IsRegistered(s.sh, x.url, x.pc.f) && x.pc.f in s.answers && s.answers[x.pc.f].url == x.url
            && Next(s, cfg, a).sh.cache == s.sh.cache[x.url := EntryOf(cfg, x.pc.f, s.answers[x.pc.f])]
  {
    if a.Take? {
      Facts(s, cfg, a.l);
      OnlyAddingChanges(s, cfg, a.l, a.outcome);
      hide Inv, EntryOf, Advance;
    }
  }

  /** A fetch that was registered, has no answer, and will not be made any more. */
  ghost predicate NeverAnswered(s: State, f: nat) {
    f < s.sh.nextFetch && f !in s.answers && forall d <- s.lookups :: !StillToMake(s.lookups[d].pc, f)
  }

  predicate StillToMake(pc: Pc, f: nat) { (pc.TrySem? || pc.Fetching?) && pc.f == f }

  /** The leader's step by which its fetch is refused a slot, fails, or crashes. */
  predicate GivesUp(s: State, cfg: Config, a: Action, f: nat) {
    && a.Take? && a.l in s.lookups && StillToMake(s.lookups[a.l].pc, f)
    && (if s.lookups[a.l].pc.TrySem? then s.sh.slots >= cfg.maxFetches else !a.outcome.Answered?)
  }

  lemma GivenUp(s: State, cfg: Config, a: Action, f: nat)
    requires Inv(s, cfg) && Enabled(s, a) && (a.Take? ==> Ready(s, a.l)) && GivesUp(s, cfg, a, f)
    ensures NeverAnswered(Next(s, cfg, a), f)
  {
    hide Inv, SharedRight, SlotsRight, HistoryRight, EntryOf;
    Facts(s, cfg, a.l);
    FetchFacts(s, cfg, f);
    var t := Next(s, cfg, a);
    forall d <- t.lookups ensures !StillToMake(t.lookups[d].pc, f) {
      if d != a.l {
        LeadsAlone(s, cfg, a.l, d);
      }
    }
  }

  lemma NeverAnsweredStays(s: State, cfg: Config, a: Action, f: nat)
    requires Enabled(s, a) && (a.Take? ==> Ready(s, a.l)) && NeverAnswered(s, f)
    ensures NeverAnswered(Next(s, cfg, a), f)
  {
    hide EntryOf, StaleResult;
    var t := Next(s, cfg, a);
    forall d <- t.lookups ensures !StillToMake(t.lookups[d].pc, f) {
      assert d in s.lookups ==> !StillToMake(s.lookups[d].pc, f);
    }
    assert a.Take? ==> !StillToMake(s.lookups[a.l].pc, f);
  }

  lemma {:induction false} NeverAnsweredOnwards(cfg: Config, states: seq<State>, actions: seq<Action>, m: nat, n: nat, f: nat)
    requires Run(cfg, states, actions) && m <= n < |states| && NeverAnswered(states[m], f)
    ensures NeverAnswered(states[n], f)
  {
    if m < n {
      hide NeverAnswered, Next, Ready;
      NeverAnsweredOnwards(cfg, states, actions, m, n - 1, f);
      assert Stepped(cfg, states[n - 1], actions[n - 1], states[n - 1 + 1]);
      NeverAnsweredStays(states[n - 1], cfg, actions[n - 1], f);
    }
  }

  /** The lookup returned from an entry. */
  predicate Served(pc: Pc) { pc.Returned? && pc.r.Got? }

  /** What is cached or was returned has an answer behind it. */
  lemma EntriesAnswered(s: State, cfg: Config)
    requires Inv(s, cfg)
    ensures forall url <- s.sh.cache :: s.sh.cache[url].source in s.answers
    ensures forall l <- s.lookups :: Served(s.lookups[l].pc) ==> s.lookups[l].pc.r.entry.source in s.answers
  {
    forall l <- s.lookups | Served(s.lookups[l].pc) ensures s.lookups[l].pc.r.entry.source in s.answers {
      Facts(s, cfg, l);
    }
  }

  /**
   In every run, once a fetch was refused a slot, failed or crashed, nothing that is ever cached or returned
   afterwards comes from it.
   */
  lemma FailedFetchAddsNothing(cfg: Config, states: seq<State>, actions: seq<Action>, m: nat, n: nat, f: nat)
    requires Run(cfg, states, actions) && m < n < |states| && GivesUp(states[m], cfg, actions[m], f)
    ensures var s := states[n];
            && (forall url <- s.sh.cache :: s.sh.cache[url].source != f)
            && (forall l <- s.lookups :: Served(s.lookups[l].pc) ==> s.lookups[l].pc.r.entry.source != f)
  {
    hide Inv, Next, Ready, GivesUp, SlotsRight, HistoryRight, EntryOf;
    RunKeeps(cfg, states, actions, m);
    assert Stepped(cfg, states[m], actions[m], states[m + 1]);
    GivenUp(states[m], cfg, actions[m], f);
    NeverAnsweredOnwards(cfg, states, actions, m + 1, n, f);
    RunKeeps(cfg, states, actions, n);
    EntriesAnswered(states[n], cfg);
  }

  /**
   In every run, a key that a lookup returned is one the registry gave for exactly that agent and key id,
   in an answer that was fresh when the lookup checked it, or within the grace period after that, or
   that came from a fetch which was still registered when the lookup began, or was registered later.
   */
  lemma KeysAreGenuine(cfg: Config, states: seq<State>, actions: seq<Action>, n: nat, l: nat)
    requires Run(cfg, states, actions) && n < |states| && l in states[n].lookups
    requires states[n].lookups[l].pc.Returned? && states[n].lookups[l].pc.key.Some?
    ensures var s := states[n];
            var x := s.lookups[l];
            && x.pc.r.Got? && x.pc.r.entry.source in s.answers
            && (var a := s.answers[x.pc.r.entry.source];
                && a.url == x.url && x.kid in a.keys && a.keys[x.kid] == x.pc.key.value
                && (match x.pc.r.via
                    case FreshAt(t) => t < a.at + cfg.positiveTTL
                    case StaleAt(t) => cfg.grace > 0 && t < a.at + cfg.positiveTTL + cfg.grace
                    case FromFetch(f) => f == x.pc.r.entry.source && f !in x.goneBefore))
  {
    RunKeeps(cfg, states, actions, n);
    Facts(states[n], cfg, l);
    hide Inv, SharedRight, SlotsRight, LeaderRight;
  }

  /** A lookup waits only for a fetch that is still registered for its agent, or already released. */
  lemma WaitsForRegistered(cfg: Config, states: seq<State>, actions: seq<Action>, n: nat, l: nat)
    requires Run(cfg, states, actions) && n < |states| && l in states[n].lookups
    requires states[n].lookups[l].pc.Waiting?
    ensures var s := states[n];
            var f := s.lookups[l].pc.f;
            && f in s.sh.fetches && s.sh.fetches[f].url == s.lookups[l].url
            && (s.sh.fetches[f].done || IsRegistered(s.sh, s.lookups[l].url, f))
  {
    RunKeeps(cfg, states, actions, n);
    Facts(states[n], cfg, l);
    FetchFacts(states[n], cfg, states[n].lookups[l].pc.f);
  }

  // ---- progress ----

  /** The most steps a lookup can still take. */
  function Rank(pc: Pc): nat {
    match pc
    case Start => 20
    case HasRead => 19
    case Lock(m) => Later(m) + 8
    case TrySem(m, _) => Later(m) + 7
    case Waiting(m, _) => Later(m) + 7
    case Fetching(m, _) => Later(m) + 6
    case Adding(m, _, _) => Later(m) + 5
    case LeaderStale(_, _) => Later(Initial) + 5
    case WaiterStale => Later(Initial) + 5
    case ReleaseSlot(m, _, _, _) => Later(m) + 4
    case WakeWaiters(m, _, _) => Later(m) + 3
    case Deregister(m, _, _) => Later(m) + 2
    case Have(m, _) => Later(m) + 1
    case CheckAge(_) => 9
    case Returned(_, _) => 0
    case Panicked => 0
  }

  /** What a lookup may still do after its first fetch: check the age of the entry and fetch again. */
  function Later(m: Mode): nat { if m.Initial? then 9 else 0 }

  lemma FetchRuns(s: State, cfg: Config, l: nat, o: Outcome)
    requires Enabled(s, Take(l, o)) && Ready(s, l)
    requires s.lookups[l].pc.TrySem? || s.lookups[l].pc.Fetching? || s.lookups[l].pc.Adding?
    ensures var t := Advance(s, cfg, l, o);
            t.lookups == s.lookups[l := t.lookups[l]] && Rank(t.lookups[l].pc) < Rank(s.lookups[l].pc)
  {
    hide EntryOf, ServesStale, Ready;
  }

  lemma ExitRuns(s: State, cfg: Config, l: nat, o: Outcome)
    requires Enabled(s, Take(l, o)) && Ready(s, l)
    requires s.lookups[l].pc.ReleaseSlot? || s.lookups[l].pc.WakeWaiters? || s.lookups[l].pc.Deregister?
    ensures var t := Advance(s, cfg, l, o);
            t.lookups == s.lookups[l := t.lookups[l]] && Rank(t.lookups[l].pc) < Rank(s.lookups[l].pc)
  {
    hide EntryOf, ServesStale, Ready;
  }

  lemma EntryRuns(s: State, cfg: Config, l: nat, o: Outcome)
    requires Enabled(s, Take(l, o)) && Ready(s, l)
    requires s.lookups[l].pc.Start? || s.lookups[l].pc.HasRead? || s.lookups[l].pc.Lock? || s.lookups[l].pc.Waiting?
    ensures var t := Advance(s, cfg, l, o);
            t.lookups == s.lookups[l := t.lookups[l]] && Rank(t.lookups[l].pc) < Rank(s.lookups[l].pc)
  {
    hide EntryOf, ServesStale, Ready;
  }

  lemma EndRuns(s: State, cfg: Config, l: nat, o: Outcome)
    requires Enabled(s, Take(l, o)) && Ready(s, l)
    requires s.lookups[l].pc.LeaderStale? || s.lookups[l].pc.WaiterStale? || s.lookups[l].pc.Have? || s.lookups[l].pc.CheckAge?
    ensures var t := Advance(s, cfg, l, o);
            t.lookups == s.lookups[l := t.lookups[l]] && Rank(t.lookups[l].pc) < Rank(s.lookups[l].pc)
  {
    hide EntryOf, ServesStale, Ready;
  }

  /** Every step a lookup takes brings it closer to its end, and no step moves another lookup. */
  lemma StepsRunOut(s: State, cfg: Config, l: nat, o: Outcome)
    requires Enabled(s, Take(l, o)) && Ready(s, l)
    ensures var t := Advance(s, cfg, l, o);
            t.lookups.Keys == s.lookups.Keys
            && Rank(t.lookups[l].pc) < Rank(s.lookups[l].pc)
            && forall d <- s.lookups :: d != l ==> t.lookups[d] == s.lookups[d]
  {
    hide Advance, Rank, Ready;
    match s.lookups[l].pc
    case TrySem(_, _) => FetchRuns(s, cfg, l, o);
    case Fetching(_, _) => FetchRuns(s, cfg, l, o);
    case Adding(_, _, _) => FetchRuns(s, cfg, l, o);
    case ReleaseSlot(_, _, _, _) => ExitRuns(s, cfg, l, o);
    case WakeWaiters(_, _, _) => ExitRuns(s, cfg, l, o);
    case Deregister(_, _, _) => ExitRuns(s, cfg, l, o);
    case Start => EntryRuns(s, cfg, l, o);
    case HasRead => EntryRuns(s, cfg, l, o);
    case Lock(_) => EntryRuns(s, cfg, l, o);
    case Waiting(_, _) => EntryRuns(s, cfg, l, o);
    case _ => EndRuns(s, cfg, l, o);
  }

  /**
   No deadlock: as long as a lookup has not ended, it or the leader it waits for can take its next step,
   whatever the registry does.
   */
  lemma SomeoneCanStep(cfg: Config, states: seq<State>, actions: seq<Action>, n: nat, l: nat, o: Outcome)
    requires Run(cfg, states, actions) && n < |states| && l in states[n].lookups
    requires !Over(states[n].lookups[l].pc) && (o.Answered? ==> o.at <= states[n].now)
    ensures Enabled(states[n], Take(l, o))
         || (states[n].lookups[l].pc.Waiting?
             && states[n].lookups[l].pc.f in states[n].sh.fetches
             && (var d := states[n].sh.fetches[states[n].lookups[l].pc.f].leader;
                 d in states[n].lookups && Leading(states[n].lookups[d].pc) == Some(states[n].lookups[l].pc.f)
                 && Enabled(states[n], Take(d, o))))
  {
    var s := states[n];
    RunKeeps(cfg, states, actions, n);
    Facts(s, cfg, l);
    if !Enabled(s, Take(l, o)) {
      var f := s.lookups[l].pc.f;
      FetchFacts(s, cfg, f);
      RegistrationFacts(s, cfg, s.lookups[l].url);
    }
  }

  // ---- a lookup that nothing interrupts ----

  /** The steps can be taken, one after the other, through these states. */
  ghost predicate Path(cfg: Config, states: seq<State>, actions: seq<Action>) {
    |states| == |actions| + 1 && forall i: nat | i < |actions| :: Stepped(cfg, states[i], actions[i], states[i + 1])
  }

  function Last(states: seq<State>): State
    requires states != []
  {
    states[|states| - 1]
  }

  /** Where the lookup stands, and what it knows. */
  predicate Stands(s: State, l: nat, kid: string, url: string, cached: Option<Entry>, pc: Pc) {
    l in s.lookups && s.lookups[l].kid == kid && s.lookups[l].url == url && s.lookups[l].cached == cached && s.lookups[l].pc == pc
  }

  lemma Walk(cfg: Config, states: seq<State>, actions: seq<Action>, a: Action) returns (more: seq<State>,
             taken: seq<Action>)
    requires Path(cfg, states, actions) && Enabled(Last(states), a) && (a.Take? ==> Ready(Last(states), a.l))
    ensures Path(cfg, more, taken) && more[0] == states[0] && Last(more) == Next(Last(states), cfg, a)
  {
    hide Enabled, Ready, Next;
    more, taken := states + [Next(Last(states), cfg, a)], actions + [a];
    forall i: nat | i < |taken| ensures Stepped(cfg, more[i], taken[i], more[i + 1]) {
      if i < |actions| {
        assert Stepped(cfg, states[i], actions[i], states[i + 1]);
      }
    }
  }

  /** What is shared after a leader has gone. */
  function Exited(sh: Shared, url: string, f: nat, holds: bool): Shared
    requires f in sh.fetches && (holds ==> sh.slots > 0)
  {
    sh.(slots := if holds then sh.slots - 1 else sh.slots,
        fetches := sh.fetches[f := sh.fetches[f].(done := true)],
        inflight := sh.inflight - {url})
  }

  lemma ExitPath(cfg: Config, states: seq<State>, actions: seq<Action>, l: nat, kid: string, url: string,
                 cached: Option<Entry>,
                 mode: Mode, f: nat, holds: bool, r: Result)
    returns (more: seq<State>, taken: seq<Action>)
    requires Path(cfg, states, actions) && Stands(Last(states), l, kid, url, cached, ReleaseSlot(mode, f, holds, r))
    requires !r.Panic? && f in Last(states).sh.fetches && (holds ==> Last(states).sh.slots > 0)
    ensures Path(cfg, more, taken) && more[0] == states[0] && Stands(Last(more), l, kid, url, cached, Have(mode, r))
    ensures Last(more).sh == Exited(Last(states).sh, url, f, holds) && Last(more).now == Last(states).now
  {
    hide Path, EntryOf, ServesStale, Choose;
    more, taken := Walk(cfg, states, actions, Take(l, Failed));
    more, taken := Walk(cfg, more, taken, Take(l, Failed));
    more, taken := Walk(cfg, more, taken, Take(l, Failed));
  }

  /** What a led fetch brings: an entry, or a result to fall back on where it was refused or failed. */
  function Brought(cfg: Config, mode: Mode, f: nat, cached: Option<Entry>, slots: nat, response: Option<Answer>, now: int): Result {
    if slots < cfg.maxFetches && response.Some? then Got(EntryOf(cfg, f, response.value), FromFetch(f))
    else if mode.Initial? then StaleResult(cfg, cached, now) else Nothing
  }

  /** A leader without an answer: it may fall back on a stale entry, and goes. */
  lemma RefusedPath(cfg: Config, states: seq<State>, actions: seq<Action>, l: nat, kid: string, url: string,
                    cached: Option<Entry>,
                    mode: Mode, f: nat, holds: bool)
    returns (more: seq<State>, taken: seq<Action>)
    requires Path(cfg, states, actions) && Stands(Last(states), l, kid, url, cached, Refused(mode, f, holds))
    requires f in Last(states).sh.fetches && (holds ==> Last(states).sh.slots > 0)
    ensures Path(cfg, more, taken) && more[0] == states[0] && Last(more).now == Last(states).now
    ensures Stands(Last(more), l, kid, url, cached,
                   Have(mode, if mode.Initial? then StaleResult(cfg, cached, Last(states).now) else Nothing))
    ensures Last(more).sh == Exited(Last(states).sh, url, f, holds)
  {
    more, taken := states, actions;
    var r := if mode.Initial? then StaleResult(cfg, cached, Last(states).now) else Nothing;
    hide Path, ServesStale;
    if mode.Initial? {
      more, taken := Walk(cfg, more, taken, Take(l, Failed));
    }
    more, taken := ExitPath(cfg, more, taken, l, kid, url, cached, mode, f, holds, r);
  }

  /** A leader with an answer: it caches the entry and goes. */
  lemma AnsweredPath(cfg: Config, states: seq<State>, actions: seq<Action>, l: nat, kid: string, url: string,
                     cached: Option<Entry>,
                     mode: Mode, f: nat, a: Answer)
    returns (more: seq<State>, taken: seq<Action>)
    requires Path(cfg, states, actions) && Stands(Last(states), l, kid, url, cached, Fetching(mode, f))
    requires f in Last(states).sh.fetches && Last(states).sh.slots > 0 && a.url == url && a.at <= Last(states).now
    ensures Path(cfg, more, taken) && more[0] == states[0] && Last(more).now == Last(states).now
    ensures var e := EntryOf(cfg, f, a);
            && Stands(Last(more), l, kid, url, cached, Have(mode, Got(e, FromFetch(f))))
            && Last(more).sh == Exited(Filled(Last(states).sh, f, Some(e), false).(cache := Last(states).sh.cache[url := e]), url, f, true)
  {
    var e := EntryOf(cfg, f, a);
    assert Answer(url, a.keys, a.at) == a;
    hide Path, EntryOf;
    more, taken := Walk(cfg, states, actions, Take(l, Answered(a.keys, a.at)));
    more, taken := Walk(cfg, more, taken, Take(l, Failed));
    more, taken := ExitPath(cfg, more, taken, l, kid, url, cached, mode, f, true, Got(e, FromFetch(f)));
  }

  /** What is shared after a led fetch, from its registration to its leader's exit. */
  function AfterLead(cfg: Config, sh: Shared, url: string, l: nat, response: Option<Answer>): Shared {
    var f, reg := sh.nextFetch, Registered(sh, url, l);
    if sh.slots >= cfg.maxFetches then Exited(Filled(reg, f, None, true), url, f, false)
    else
      var held := reg.(slots := sh.slots + 1);
      if response.None? then Exited(Filled(held, f, None, true), url, f, true)
      else
        var e := EntryOf(cfg, f, response.value);
        Exited(Filled(held, f, Some(e), false).(cache := sh.cache[url := e]), url, f, true)
  }

  lemma AfterLeadExactly(cfg: Config, sh: Shared, url: string, l: nat, response: Option<Answer>)
    requires url !in sh.inflight
    ensures AfterLead(cfg, sh, url, l, response) == Obtained(cfg, sh, url, l, response).2
  {
    hide EntryOf;
    var f := sh.nextFetch;
    assert sh.inflight[url := f] - {url} == sh.inflight;
    var e := if sh.slots >= cfg.maxFetches || response.None? then None else Some(EntryOf(cfg, f, response.value));
    assert AfterLead(cfg, sh, url, l, response).fetches == sh.fetches[f := Fetch(url, l, e, e.None?, true)];
  }

  /** A leader with a slot, from its call to the registry to its result. */
  lemma HeldPath(cfg: Config, states: seq<State>, actions: seq<Action>, l: nat, kid: string, url: string,
                 cached: Option<Entry>,
                 mode: Mode, f: nat, response: Option<Answer>)
    returns (more: seq<State>, taken: seq<Action>)
    requires Path(cfg, states, actions) && Stands(Last(states), l, kid, url, cached, Fetching(mode, f))
    requires f in Last(states).sh.fetches && Last(states).sh.slots > 0
    requires response.Some? ==> response.value.url == url && response.value.at <= Last(states).now
    ensures Path(cfg, more, taken) && more[0] == states[0] && Last(more).now == Last(states).now
    ensures Stands(Last(more), l, kid, url, cached,
                   Have(mode, if response.Some? then Got(EntryOf(cfg, f, response.value), FromFetch(f))
                              else if mode.Initial? then StaleResult(cfg, cached, Last(states).now) else Nothing))
    ensures var sh := Last(states).sh;
            Last(more).sh ==
            if response.None? then Exited(Filled(sh, f, None, true), url, f, true)
            else
              var e := EntryOf(cfg, f, response.value);
              Exited(Filled(sh, f, Some(e), false).(cache := sh.cache[url := e]), url, f, true)
  {
    hide Path, EntryOf, StaleResult, Exited;
    if response.None? {
      more, taken := Walk(cfg, states, actions, Take(l, Failed));
      more, taken := RefusedPath(cfg, more, taken, l, kid, url, cached, mode, f, true);
    } else {
      more, taken := AnsweredPath(cfg, states, actions, l, kid, url, cached, mode, f, response.value);
    }
  }

  /** A leader at the semaphore. */
  lemma SlotPath(cfg: Config, states: seq<State>, actions: seq<Action>, l: nat, kid: string, url: string,
                 cached: Option<Entry>,
                 mode: Mode, f: nat)
    returns (more: seq<State>, taken: seq<Action>)
    requires Path(cfg, states, actions) && Stands(Last(states), l, kid, url, cached, TrySem(mode, f)) && f in Last(states).sh.fetches
    ensures Path(cfg, more, taken) && more[0] == states[0] && Last(more).now == Last(states).now
    ensures var sh := Last(states).sh;
            if sh.slots < cfg.maxFetches
            then Stands(Last(more), l, kid, url, cached, Fetching(mode, f)) && Last(more).sh == sh.(slots := sh.slots + 1)
            else Stands(Last(more), l, kid, url, cached, Refused(mode, f, false)) && Last(more).sh == Filled(sh, f, None, true)
  {
    hide Path;
    more, taken := Walk(cfg, states, actions, Take(l, Failed));
  }

  /** A leader from its attempt at a slot to its result. */
  lemma TryPath(cfg: Config, states: seq<State>, actions: seq<Action>, l: nat, kid: string, url: string,
                cached: Option<Entry>,
                mode: Mode, sh: Shared, response: Option<Answer>)
    returns (more: seq<State>, taken: seq<Action>)
    requires Path(cfg, states, actions) && Stands(Last(states), l, kid, url, cached, TrySem(mode, sh.nextFetch))
    requires Last(states).sh == Registered(sh, url, l)
    requires response.Some? ==> response.value.url == url && response.value.at <= Last(states).now
    ensures Path(cfg, more, taken) && more[0] == states[0] && Last(more).now == Last(states).now
    ensures Stands(Last(more), l, kid, url, cached,
                   Have(mode, Brought(cfg, mode, sh.nextFetch, cached, sh.slots, response, Last(states).now)))
    ensures Last(more).sh == AfterLead(cfg, sh, url, l, response)
  {
    var f := sh.nextFetch;
    assert f in Registered(sh, url, l).fetches && Registered(sh, url, l).slots == sh.slots;
    assert Registered(sh, url, l).cache == sh.cache;
    hide Path, EntryOf, StaleResult, Exited, Stands, Refused, Registered;
    more, taken := SlotPath(cfg, states, actions, l, kid, url, cached, mode, f);
    if sh.slots >= cfg.maxFetches {
      more, taken := RefusedPath(cfg, more, taken, l, kid, url, cached, mode, f, false);
    } else {
      more, taken := HeldPath(cfg, more, taken, l, kid, url, cached, mode, f, response);
    }
  }

  /** A leader from its registration to its result. */
  lemma LeadPath(cfg: Config, states: seq<State>, actions: seq<Action>, l: nat, kid: string, url: string,
                 cached: Option<Entry>,
                 mode: Mode, response: Option<Answer>)
    returns (more: seq<State>, taken: seq<Action>)
    requires Path(cfg, states, actions) && Stands(Last(states), l, kid, url, cached, Lock(mode)) && url !in Last(states).sh.inflight
    requires response.Some? ==> response.value.url == url && response.value.at <= Last(states).now
    ensures Path(cfg, more, taken) && more[0] == states[0] && Last(more).now == Last(states).now
    ensures var sh := Last(states).sh;
            && Stands(Last(more), l, kid, url, cached,
                      Have(mode, Brought(cfg, mode, sh.nextFetch, cached, sh.slots, response, Last(states).now)))
            && Last(more).sh == Obtained(cfg, sh, url, l, response).2
  {
    var sh := Last(states).sh;
    hide Path, EntryOf, StaleResult, AfterLead, Brought, Obtained;
    more, taken := Walk(cfg, states, actions, Take(l, Failed));
    more, taken := TryPath(cfg, more, taken, l, kid, url, cached, mode, sh, response);
    AfterLeadExactly(cfg, sh, url, l, response);
  }

  /** A lookup that joins a fetch whose waiters are released. */
  lemma JoinPath(cfg: Config, states: seq<State>, actions: seq<Action>, l: nat, kid: string, url: string,
                 cached: Option<Entry>, mode: Mode)
    returns (more: seq<State>, taken: seq<Action>)
    requires Path(cfg, states, actions) && Stands(Last(states), l, kid, url, cached, Lock(mode))
    requires url in Last(states).sh.inflight && Released(Last(states).sh, url)
    ensures Path(cfg, more, taken) && more[0] == states[0] && Last(more).now == Last(states).now && Last(more).sh == Last(states).sh
    ensures var sh := Last(states).sh;
            var g := sh.fetches[sh.inflight[url]];
            Stands(Last(more), l, kid, url, cached,
                   Have(mode, if !g.failed then (if g.entry.Some? then Got(g.entry.value, FromFetch(sh.inflight[url])) else Nothing)
                              else if mode.Initial? then StaleResult(cfg, cached, Last(states).now) else Nothing))
  {
    var sh := Last(states).sh;
    hide Path, StaleResult;
    more, taken := Walk(cfg, states, actions, Take(l, Failed));
    more, taken := Walk(cfg, more, taken, Take(l, Failed));
    if sh.fetches[sh.inflight[url]].failed && mode.Initial? {
      more, taken := Walk(cfg, more, taken, Take(l, Failed));
    }
  }

  /** The entry a result stands for. */
  function EntryIn(r: Result): Option<Entry> { if r.Got? then Some(r.entry) else None }

  /** Leading or joining, the lookup gets what the class method gets, and leaves the same behind. */
  lemma FetchPath(cfg: Config, states: seq<State>, actions: seq<Action>, l: nat, kid: string, url: string,
                  cached: Option<Entry>,
                  mode: Mode, response: Option<Answer>)
    returns (more: seq<State>, taken: seq<Action>, r: Result)
    requires Path(cfg, states, actions) && Stands(Last(states), l, kid, url, cached, Lock(mode)) && Released(Last(states).sh, url)
    requires response.Some? ==> response.value.url == url && response.value.at <= Last(states).now
    ensures Path(cfg, more, taken) && more[0] == states[0] && Last(more).now == Last(states).now
    ensures Stands(Last(more), l, kid, url, cached, Have(mode, r)) && !r.Panic?
    ensures var (e, failed, after) := Obtained(cfg, Last(states).sh, url, l, response);
            && Last(more).sh == after
            && EntryIn(r) == if !failed then e
                             else if mode.Initial? && ServesStale(cfg, cached, Last(states).now) then cached else None
  {
    var sh, now := Last(states).sh, Last(states).now;
    hide Path, EntryOf, ServesStale;
    if url in sh.inflight {
      more, taken := JoinPath(cfg, states, actions, l, kid, url, cached, mode);
    } else {
      more, taken := LeadPath(cfg, states, actions, l, kid, url, cached, mode, response);
    }
    StaleIs(cfg, cached, now);
    assert more != [];
    r := Last(more).lookups[l].pc.r;
  }

  lemma StaleIs(cfg: Config, cached: Option<Entry>, now: int)
    ensures EntryIn(StaleResult(cfg, cached, now)) == if ServesStale(cfg, cached, now) then cached else None
    ensures !StaleResult(cfg, cached, now).Panic?
  {
  }

  lemma TickPath(cfg: Config, states: seq<State>, actions: seq<Action>, l: nat, kid: string, url: string,
                 cached: Option<Entry>, pc: Pc, now: int)
    returns (more: seq<State>, taken: seq<Action>)
    requires Path(cfg, states, actions) && Stands(Last(states), l, kid, url, cached, pc) && Last(states).now <= now
    ensures Path(cfg, more, taken) && more[0] == states[0] && Last(more).now == now && Last(more).sh == Last(states).sh
    ensures Stands(Last(more), l, kid, url, cached, pc)
  {
    var d := now - Last(states).now;
    hide Path;
    more, taken := Walk(cfg, states, actions, Tick(d));
  }

  /** A lookup begins, reads the cache, and checks what it found at a later time. */
  lemma BeginPath(cfg: Config, s: State, l: nat, kid: string, url: string, checked: int)
    returns (states: seq<State>, actions: seq<Action>)
    requires l !in s.lookups && s.now <= checked
    ensures Path(cfg, states, actions) && states[0] == s && Last(states).now == checked && Last(states).sh == s.sh
    ensures var cached := Cached(s.sh.cache, url);
            Stands(Last(states), l, kid, url, cached,
                   if cached.Some? && checked < cached.value.expires then Have(Initial, Got(cached.value, FreshAt(checked))) else Lock(Initial))
  {
    states, actions := [s], [];
    assert Path(cfg, states, actions);
    hide Path;
    states, actions := Walk(cfg, states, actions, Begin(l, kid, url));
    states, actions := Walk(cfg, states, actions, Take(l, Failed));
    states, actions := TickPath(cfg, states, actions, l, kid, url, Cached(s.sh.cache, url), HasRead, checked);
    states, actions := Walk(cfg, states, actions, Take(l, Failed));
  }

  /** The first part of a lookup: what it does to come by an entry is what the class method does. */
  lemma FirstPath(cfg: Config, s: State, l: nat, kid: string, url: string, checked: int, response: Option<Answer>,
                  checkedAgain: int)
    returns (states: seq<State>, actions: seq<Action>, r: Result)
    requires l !in s.lookups && Released(s.sh, url) && s.now <= checked <= checkedAgain
    requires response.Some? ==> response.value.url == url && response.value.at <= checkedAgain
    ensures Path(cfg, states, actions) && states[0] == s && Last(states).now == checkedAgain
    ensures Stands(Last(states), l, kid, url, Cached(s.sh.cache, url), Have(Initial, r)) && !r.Panic?
    ensures (EntryIn(r), Last(states).sh) == FirstEntry(cfg, s.sh, url, l, checked, response, checkedAgain)
    ensures Released(Last(states).sh, url)
  {
    var cached := Cached(s.sh.cache, url);
    states, actions := BeginPath(cfg, s, l, kid, url, checked);
    hide Path, Stands, ServesStale;
    if cached.Some? && checked < cached.value.expires {
      r := Got(cached.value, FreshAt(checked));
      states, actions := TickPath(cfg, states, actions, l, kid, url, cached, Have(Initial, r), checkedAgain);
    } else {
      states, actions := TickPath(cfg, states, actions, l, kid, url, cached, Lock(Initial), checkedAgain);
      states, actions, r := FetchPath(cfg, states, actions, l, kid, url, cached, Initial, response);
    }
  }

  /** A lookup chooses among the keys of its entry; without one for its id it may have to look at the entry's age. */
  lemma ChoosePath(cfg: Config, states: seq<State>, actions: seq<Action>, l: nat, kid: string, url: string,
                   cached: Option<Entry>, mode: Mode, r: Result)
    returns (more: seq<State>, taken: seq<Action>)
    requires Path(cfg, states, actions) && Stands(Last(states), l, kid, url, cached, Have(mode, r))
    ensures Path(cfg, more, taken) && more[0] == states[0] && Last(more).now == Last(states).now && Last(more).sh == Last(states).sh
    ensures Stands(Last(more), l, kid, url, cached, Choose(kid, mode, r))
  {
    hide Path, Choose;
    more, taken := Walk(cfg, states, actions, Take(l, Failed));
  }

  lemma AgePath(cfg: Config, states: seq<State>, actions: seq<Action>, l: nat, kid: string, url: string,
                cached: Option<Entry>, fetchedAt: int)
    returns (more: seq<State>, taken: seq<Action>)
    requires Path(cfg, states, actions) && Stands(Last(states), l, kid, url, cached, CheckAge(fetchedAt))
    ensures Path(cfg, more, taken) && more[0] == states[0] && Last(more).now == Last(states).now && Last(more).sh == Last(states).sh
    ensures Stands(Last(more), l, kid, url, cached,
                   if Last(states).now - fetchedAt >= cfg.cooldown then Lock(Refetch) else Returned(None, Nothing))
  {
    hide Path;
    more, taken := Walk(cfg, states, actions, Take(l, Failed));
  }

  /** The refetch of an unknown key id, to the lookup's end. */
  lemma RefetchPath(cfg: Config, states: seq<State>, actions: seq<Action>, l: nat, kid: string, url: string,
                    cached: Option<Entry>,
                    again: Option<Answer>)
    returns (more: seq<State>, taken: seq<Action>)
    requires Path(cfg, states, actions) && Stands(Last(states), l, kid, url, cached, Lock(Refetch)) && Released(Last(states).sh, url)
    requires again.Some? ==> again.value.url == url && again.value.at <= Last(states).now
    ensures Path(cfg, more, taken) && more[0] == states[0] && l in Last(more).lookups && Last(more).lookups[l].pc.Returned?
    ensures var (renewed, _, refetched) := Obtained(cfg, Last(states).sh, url, l, again);
            Last(more).lookups[l].pc.key == KeyIn(renewed, kid) && Last(more).sh == refetched
  {
    hide Path, EntryOf;
    var r;
    more, taken, r := FetchPath(cfg, states, actions, l, kid, url, cached, Refetch, again);
    more, taken := ChoosePath(cfg, more, taken, l, kid, url, cached, Refetch, r);
  }

  /** The second part of a lookup, from the entry it came by to its end. */
  lemma SecondPath(cfg: Config, states: seq<State>, actions: seq<Action>, l: nat, kid: string, url: string,
                   cached: Option<Entry>,
                   r: Result, aged: int, again: Option<Answer>)
    returns (more: seq<State>, taken: seq<Action>)
    requires Path(cfg, states, actions) && Stands(Last(states), l, kid, url, cached, Have(Initial, r)) && Released(Last(states).sh, url)
    requires Last(states).now <= aged && (again.Some? ==> again.value.url == url && again.value.at <= aged)
    ensures Path(cfg, more, taken) && more[0] == states[0] && l in Last(more).lookups && Last(more).lookups[l].pc.Returned?
    ensures var first, after := EntryIn(r), Last(states).sh;
            var x := Last(more).lookups[l];
            if first.None? || first.value.keys.None? then x.pc.key == None && Last(more).sh == after
            else if kid in first.value.keys.value || aged - first.value.fetchedAt < cfg.cooldown
            then x.pc.key == KeyIn(first, kid) && Last(more).sh == after
            else
              var (renewed, _, refetched) := Obtained(cfg, after, url, l, again);
              x.pc.key == KeyIn(renewed, kid) && Last(more).sh == refetched
  {
    hide Path, Obtained;
    more, taken := ChoosePath(cfg, states, actions, l, kid, url, cached, Initial, r);
    if r.Got? && r.entry.keys.Some? && kid !in r.entry.keys.value {
      var at := r.entry.fetchedAt;
      more, taken := TickPath(cfg, more, taken, l, kid, url, cached, CheckAge(at), aged);
      more, taken := AgePath(cfg, more, taken, l, kid, url, cached, at);
      if aged - at >= cfg.cooldown {
        more, taken := RefetchPath(cfg, more, taken, l, kid, url, cached, again);
      }
    }
  }

  /**
   The class and the runs agree: a lookup that nothing interrupts can take all its steps, and ends with the
   key that the class method returns and with the shared state that it leaves.
   */
  lemma UninterruptedLookup(cfg: Config, s: State, l: nat, kid: string, url: string, checked: int, response: Option<Answer>,
                            checkedAgain: int, aged: int, again: Option<Answer>)
    returns (states: seq<State>, actions: seq<Action>)
    requires l !in s.lookups && Released(s.sh, url) && s.now <= checked <= checkedAgain <= aged
    requires response.Some? ==> response.value.url == url && response.value.at <= checkedAgain
    requires again.Some? ==> again.value.url == url && again.value.at <= aged
    ensures Path(cfg, states, actions) && states[0] == s
    ensures var (key, after) := LookedUp(cfg, s.sh, kid, url, l, checked, response, checkedAgain, aged, again);
            && l in Last(states).lookups && Last(states).lookups[l].pc.Returned? && Last(states).lookups[l].pc.key == key
            && Last(states).sh == after
  {
    var cached := Cached(s.sh.cache, url);
    var r;
    states, actions, r := FirstPath(cfg, s, l, kid, url, checked, response, checkedAgain);
    hide Path, Stands, Obtained, FirstEntry, KeyIn;
    states, actions := SecondPath(cfg, states, actions, l, kid, url, cached, r, aged, again);
  }
}
