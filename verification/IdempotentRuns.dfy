/**
 Wrapped calls and the sweeper running at the same time over one memory backend. Every access to the
 backend is one step under its mutex; the clock reading and the handler are steps of their own, and
 any number of other steps may come between them.
 */
module IdempotentRuns {
  import opened Text
  import opened IdempotentStore

  /** Where a call stands. A finished successful call also names the stored entry it answered from. */
  datatype Phase =
    | Started
    | Clocked(clock: int)
    | Missed(clock: int)
    | Handled(clock: int, computed: string)
    | Done(clock: int, outcome: Outcome, life: Option<nat>)

  datatype Call = Call(request: Request, phase: Phase)

  /** One entry that was put into the backend: by which call, under which key, and when. */
  datatype Stored = Stored(call: nat, id: string, entry: Entry, at: int)

  /** The backend's entries, the calls, and a history: all entries ever put, and which are there now. */
  datatype State = State(
    now: int,
    entries: map<string, Entry>,
    calls: map<nat, Call>,
    stores: seq<Stored>,
    owner: map<string, nat>)

  datatype Action =
    | Tick(elapsed: nat)
    | Begin(c: nat, request: Request)
    | ReadClock(c: nat)
    | Get(c: nat)
    | HandlerReturns(c: nat, response: string)
    | HandlerFails(c: nat)
    | Put(c: nat)
    | Sweep(read: int)

  function Init(now: int): State { State(now, map[], map[], [], map[]) }

  predicate Enabled(s: State, a: Action) {
    match a
    case Tick(_) => true
    case Begin(c, r) => c !in s.calls && ValidKey(r.key)
    case ReadClock(c) => c in s.calls && s.calls[c].phase.Started?
    case Get(c) => c in s.calls && s.calls[c].phase.Clocked?
    case HandlerReturns(c, _) => c in s.calls && s.calls[c].phase.Missed?
    case HandlerFails(c) => c in s.calls && s.calls[c].phase.Missed?
    case Put(c) => c in s.calls && s.calls[c].phase.Handled?
    case Sweep(read) => read <= s.now
  }

  function Become(s: State, c: nat, p: Phase): map<nat, Call>
    requires c in s.calls
  {
    s.calls[c := Call(s.calls[c].request, p)]
  }

  /** The phase of a call that found an entry. */
  function Answered(s: State, cfg: Config, c: nat, clock: int): Phase
    requires c in s.calls && Id(s.calls[c].request) in s.entries && s.owner.Keys == s.entries.Keys
  {
    var r := s.calls[c].request;
    var outcome := EvaluateExisting(s.entries[Id(r)], r.hash, clock, cfg.skew);
    Done(clock, outcome, if outcome.Success? then Some(s.owner[Id(r)]) else None)
  }

  function Next(s: State, cfg: Config, a: Action): State
    requires Enabled(s, a) && s.owner.Keys == s.entries.Keys
  {
    match a
    case Tick(d) => s.(now := s.now + d)
    case Begin(c, r) => s.(calls := s.calls[c := Call(r, Started)])
    case ReadClock(c) => s.(calls := Become(s, c, Clocked(s.now)))
    case Get(c) =>
      var clock := s.calls[c].phase.clock;
      if Id(s.calls[c].request) in s.entries then s.(calls := Become(s, c, Answered(s, cfg, c, clock)))
      else s.(calls := Become(s, c, Missed(clock)))
    case HandlerReturns(c, response) => s.(calls := Become(s, c, Handled(s.calls[c].phase.clock, response)))
    case HandlerFails(c) => s.(calls := Become(s, c, Done(s.calls[c].phase.clock, Error(HandlerFailed), None)))
    case Put(c) => NextPut(s, cfg, c)
    case Sweep(read) =>
      var left := Swept(s.entries, read);
      s.(entries := left, owner := map k | k in s.owner && k in left :: s.owner[k])
  }

  function NextPut(s: State, cfg: Config, c: nat): State
    requires Enabled(s, Put(c)) && s.owner.Keys == s.entries.Keys
  {
    var r, p := s.calls[c].request, s.calls[c].phase;
    if Id(r) in s.entries then s.(calls := Become(s, c, Answered(s, cfg, c, p.clock)))
    else
      var e := Fresh(r, p.computed, p.clock, cfg.ttl);
      s.(entries := s.entries[Id(r) := e],
         calls := Become(s, c, Done(p.clock, Success(p.computed, false), Some(|s.stores|))),
         stores := s.stores + [Stored(c, Id(r), e, s.now)],
         owner := s.owner[Id(r) := |s.stores|])
  }

  // ---- the invariant ----

  /** The entries are the stored ones their owners put. */
  ghost predicate OwnersRight(s: State) {
    && s.owner.Keys == s.entries.Keys
    && forall k <- s.owner :: s.owner[k] < |s.stores| && s.stores[s.owner[k]].id == k
                              && s.stores[s.owner[k]].entry == s.entries[k]
  }

  /** The call that put the entry is done, was not replayed, and answered with the entry's response. */
  ghost predicate PutRight(s: State, cfg: Config, i: nat)
    requires i < |s.stores|
  {
    var x := s.stores[i];
    && x.call in s.calls
    && x.id == Id(s.calls[x.call].request)
    && s.calls[x.call].phase == Done(x.entry.createdAt, Success(x.entry.response, false), Some(i))
    && x.entry == Fresh(s.calls[x.call].request, x.entry.response, x.entry.createdAt, cfg.ttl)
    && x.entry.createdAt <= x.at <= s.now
  }

  /** A successful call answers with its entry's response; it is replayed unless it put the entry. */
  ghost predicate AnswerRight(s: State, c: nat)
    requires c in s.calls
  {
    var p, r := s.calls[c].phase, s.calls[c].request;
    p.Done? && p.outcome.Success? ==>
      && p.life.Some? && p.life.value < |s.stores|
      && s.stores[p.life.value].id == Id(r)
      && s.stores[p.life.value].entry.hash == r.hash
      && s.stores[p.life.value].entry.response == p.outcome.response
      && (p.outcome.replayed <==> s.stores[p.life.value].call != c)
  }

  /** An entry leaves the backend only once its window is over. */
  ghost predicate KeptLongEnough(s: State, cfg: Config, i: nat)
    requires i < |s.stores|
  {
    (s.stores[i].id in s.owner && s.owner[s.stores[i].id] == i) || s.now > s.stores[i].entry.createdAt + cfg.ttl
  }

  /** Of two entries stored under one key, the later was put after the earlier one's window. */
  ghost predicate Apart(s: State, cfg: Config, i: nat, j: nat)
    requires i < j < |s.stores|
  {
    s.stores[i].id == s.stores[j].id ==> s.stores[j].at > s.stores[i].entry.createdAt + cfg.ttl
  }

  ghost predicate ClockRight(s: State, c: nat)
    requires c in s.calls
  {
    (!s.calls[c].phase.Started? ==> s.calls[c].phase.clock <= s.now) && ValidKey(s.calls[c].request.key)
  }

  ghost predicate Inv(s: State, cfg: Config) {
    && OwnersRight(s)
    && (forall i: nat | i < |s.stores| :: PutRight(s, cfg, i))
    && (forall c <- s.calls :: AnswerRight(s, c))
    && (forall i: nat | i < |s.stores| :: KeptLongEnough(s, cfg, i))
    && (forall i: nat, j: nat | i < j < |s.stores| :: Apart(s, cfg, i, j))
    && (forall c <- s.calls :: ClockRight(s, c))
  }

  /** Changing the phase of a call that has not finished disturbs nothing that was stored. */
  lemma BecomeKeeps(s: State, cfg: Config, c: nat, p: Phase)
    requires Inv(s, cfg) && c in s.calls && !s.calls[c].phase.Done?
    requires p.Started? || p.clock <= s.now
    requires AnswerRight(s.(calls := Become(s, c, p)), c)
    ensures Inv(s.(calls := Become(s, c, p)), cfg)
  {
    var t := s.(calls := Become(s, c, p));
    forall i: nat | i < |t.stores| ensures PutRight(t, cfg, i) {
      assert PutRight(s, cfg, i);
    }
    forall d <- t.calls ensures AnswerRight(t, d) && ClockRight(t, d) {
      assert AnswerRight(s, d) && ClockRight(s, d);
    }
    forall i: nat | i < |t.stores| ensures KeptLongEnough(t, cfg, i) {
      assert KeptLongEnough(s, cfg, i);
    }
    forall i: nat, j: nat | i < j < |t.stores| ensures Apart(t, cfg, i, j) {
      assert Apart(s, cfg, i, j);
    }
  }

  lemma AnsweredRight(s: State, cfg: Config, c: nat, clock: int)
    requires Inv(s, cfg) && c in s.calls && !s.calls[c].phase.Done? && clock <= s.now
    requires Id(s.calls[c].request) in s.entries
    ensures Inv(s.(calls := Become(s, c, Answered(s, cfg, c, clock))), cfg)
  {
    var i := s.owner[Id(s.calls[c].request)];
    assert PutRight(s, cfg, i);
    BecomeKeeps(s, cfg, c, Answered(s, cfg, c, clock));
  }

  lemma BeginKeeps(s: State, cfg: Config, c: nat, r: Request)
    requires Inv(s, cfg) && Enabled(s, Begin(c, r))
    ensures Inv(Next(s, cfg, Begin(c, r)), cfg)
  {
    var t := Next(s, cfg, Begin(c, r));
    forall i: nat | i < |t.stores| ensures PutRight(t, cfg, i) && KeptLongEnough(t, cfg, i) {
      assert PutRight(s, cfg, i) && KeptLongEnough(s, cfg, i);
    }
    forall d <- t.calls ensures AnswerRight(t, d) && ClockRight(t, d) {
      assert d != c ==> AnswerRight(s, d) && ClockRight(s, d);
    }
    forall i: nat, j: nat | i < j < |t.stores| ensures Apart(t, cfg, i, j) {
      assert Apart(s, cfg, i, j);
    }
  }

  lemma TickKeeps(s: State, cfg: Config, d: nat)
    requires Inv(s, cfg)
    ensures Inv(Next(s, cfg, Tick(d)), cfg)
  {
    var t := Next(s, cfg, Tick(d));
    forall i: nat | i < |t.stores| ensures PutRight(t, cfg, i) && KeptLongEnough(t, cfg, i) {
      assert PutRight(s, cfg, i) && KeptLongEnough(s, cfg, i);
    }
    forall d <- t.calls ensures AnswerRight(t, d) && ClockRight(t, d) {
      assert AnswerRight(s, d) && ClockRight(s, d);
    }
    forall i: nat, j: nat | i < j < |t.stores| ensures Apart(t, cfg, i, j) {
      assert Apart(s, cfg, i, j);
    }
  }

  lemma SweepKeeps(s: State, cfg: Config, read: int)
    requires Inv(s, cfg) && read <= s.now
    ensures Inv(Next(s, cfg, Sweep(read)), cfg)
  {
    var t := Next(s, cfg, Sweep(read));
    forall i: nat | i < |t.stores| ensures PutRight(t, cfg, i) && KeptLongEnough(t, cfg, i) {
      assert PutRight(s, cfg, i) && KeptLongEnough(s, cfg, i);
    }
    forall d <- t.calls ensures AnswerRight(t, d) && ClockRight(t, d) {
      assert AnswerRight(s, d) && ClockRight(s, d);
    }
    forall i: nat, j: nat | i < j < |t.stores| ensures Apart(t, cfg, i, j) {
      assert Apart(s, cfg, i, j);
    }
  }

  /** Under a key that is not there, every entry ever put has outlived its window. */
  lemma FreshApart(s: State, cfg: Config, c: nat)
    requires Inv(s, cfg) && Enabled(s, Put(c)) && Id(s.calls[c].request) !in s.entries
    ensures var t := Next(s, cfg, Put(c));
            forall i: nat, j: nat | i < j < |t.stores| :: Apart(t, cfg, i, j)
  {
    var t := Next(s, cfg, Put(c));
    forall i: nat, j: nat | i < j < |t.stores| ensures Apart(t, cfg, i, j) {
      assert t.stores[i] == s.stores[i];
      if j < |s.stores| {
        assert Apart(s, cfg, i, j);
      } else {
        assert KeptLongEnough(s, cfg, i);
      }
    }
  }

  lemma FreshRight(s: State, cfg: Config, c: nat)
    requires Inv(s, cfg) && Enabled(s, Put(c)) && Id(s.calls[c].request) !in s.entries
    ensures var t := Next(s, cfg, Put(c));
            forall i: nat | i < |t.stores| :: PutRight(t, cfg, i) && KeptLongEnough(t, cfg, i)
  {
    assert ClockRight(s, c);
    var t := Next(s, cfg, Put(c));
    forall i: nat | i < |t.stores| ensures PutRight(t, cfg, i) && KeptLongEnough(t, cfg, i) {
      if i < |s.stores| {
        assert t.stores[i] == s.stores[i];
        assert PutRight(s, cfg, i) && KeptLongEnough(s, cfg, i);
      }
    }
  }

  lemma PutKeeps(s: State, cfg: Config, c: nat)
    requires Inv(s, cfg) && Enabled(s, Put(c))
    ensures Inv(Next(s, cfg, Put(c)), cfg)
  {
    assert ClockRight(s, c);
    if Id(s.calls[c].request) in s.entries {
      AnsweredRight(s, cfg, c, s.calls[c].phase.clock);
    } else {
      FreshApart(s, cfg, c);
      FreshRight(s, cfg, c);
      hide PutRight, KeptLongEnough, Apart;
      var t := Next(s, cfg, Put(c));
      forall d <- t.calls ensures AnswerRight(t, d) && ClockRight(t, d) {
        assert AnswerRight(s, d) && ClockRight(s, d);
      }
    }
  }

  /** Every step of every interleaving keeps the invariant. */
  lemma StepKeeps(s: State, cfg: Config, a: Action)
    requires Inv(s, cfg) && Enabled(s, a)
    ensures Inv(Next(s, cfg, a), cfg)
  {
    hide Apart, KeptLongEnough, PutRight;
    match a
    case Tick(d) => TickKeeps(s, cfg, d);
    case Begin(c, r) => BeginKeeps(s, cfg, c, r);
    case ReadClock(c) => BecomeKeeps(s, cfg, c, Clocked(s.now));
    case Get(c) =>
      assert ClockRight(s, c);
      if Id(s.calls[c].request) in s.entries {
        AnsweredRight(s, cfg, c, s.calls[c].phase.clock);
      } else {
        BecomeKeeps(s, cfg, c, Missed(s.calls[c].phase.clock));
      }
    case HandlerReturns(c, response) =>
      assert ClockRight(s, c);
      BecomeKeeps(s, cfg, c, Handled(s.calls[c].phase.clock, response));
    case HandlerFails(c) =>
      assert ClockRight(s, c);
      BecomeKeeps(s, cfg, c, Done(s.calls[c].phase.clock, Error(HandlerFailed), None));
    case Put(c) => PutKeeps(s, cfg, c);
    case Sweep(read) => SweepKeeps(s, cfg, read);
  }

  // ---- runs ----

  /** A run: its states and the actions between them. */
  ghost predicate Run(cfg: Config, states: seq<State>, actions: seq<Action>) {
    && |states| == |actions| + 1
    && (exists now :: states[0] == Init(now))
    && forall i: nat | i < |actions| :: Stepped(cfg, states[i], actions[i], states[i + 1])
  }

  ghost predicate Stepped(cfg: Config, s: State, a: Action, t: State) {
    s.owner.Keys == s.entries.Keys && Enabled(s, a) && t == Next(s, cfg, a)
  }

  lemma {:induction false} RunKeeps(cfg: Config, states: seq<State>, actions: seq<Action>, n: nat)
    requires Run(cfg, states, actions) && n < |states|
    ensures Inv(states[n], cfg)
  {
    hide Inv, Next;
    if n == 0 {
      StartsRight(cfg, states[0]);
    } else {
      RunKeeps(cfg, states, actions, n - 1);
      assert Stepped(cfg, states[n - 1], actions[n - 1], states[n - 1 + 1]);
      StepKeeps(states[n - 1], cfg, actions[n - 1]);
    }
  }

  lemma StartsRight(cfg: Config, s: State)
    requires exists now :: s == Init(now)
    ensures Inv(s, cfg)
  {
  }

  ghost predicate Succeeded(s: State, c: nat) {
    c in s.calls && s.calls[c].phase.Done? && s.calls[c].phase.outcome.Success?
  }

  ghost function Life(s: State, c: nat): Option<nat>
    requires Succeeded(s, c)
  {
    s.calls[c].phase.life
  }

  ghost function Answer(s: State, c: nat): Outcome
    requires Succeeded(s, c)
  {
    s.calls[c].phase.outcome
  }

  /**
   In every run, the successful calls of one entry lifetime agree on scope, key, hash and response, and
   exactly one of them, the one that put the entry, is not replayed.
   */
  lemma OneResponsePerLifetime(cfg: Config, states: seq<State>, actions: seq<Action>, n: nat, c: nat)
    requires Run(cfg, states, actions) && n < |states| && Succeeded(states[n], c)
    ensures Life(states[n], c).Some?
    ensures exists d :: d in states[n].calls && Succeeded(states[n], d) && Life(states[n], d) == Life(states[n], c)
                        && !Answer(states[n], d).replayed
    ensures forall d | Succeeded(states[n], d) && Life(states[n], d) == Life(states[n], c) ::
              && states[n].calls[d].request == states[n].calls[c].request
              && Answer(states[n], d).response == Answer(states[n], c).response
              && (!Answer(states[n], d).replayed && !Answer(states[n], c).replayed ==> c == d)
  {
    RunKeeps(cfg, states, actions, n);
    var s := states[n];
    assert AnswerRight(s, c) && ClockRight(s, c);
    var i := Life(s, c).value;
    assert PutRight(s, cfg, i);
    forall d | Succeeded(s, d) && Life(s, d) == Life(s, c)
      ensures s.calls[d].request == s.calls[c].request
      ensures Answer(s, d).response == Answer(s, c).response
      ensures !Answer(s, d).replayed && !Answer(s, c).replayed ==> c == d
    {
      assert AnswerRight(s, d) && ClockRight(s, d);
      var q, r := s.calls[d].request, s.calls[c].request;
      ValidKeysKeptApart(q.scope, q.key, r.scope, r.key);
    }
  }

  /**
   In every run, of two calls that both stored a response for one scope and key, the later put comes
   more than the TTL after the earlier call read its clock.
   */
  lemma StoringCallsApart(cfg: Config, states: seq<State>, actions: seq<Action>, n: nat, i: nat, j: nat)
    requires Run(cfg, states, actions) && n < |states| && i < j < |states[n].stores|
    requires states[n].stores[i].id == states[n].stores[j].id
    ensures var x, y := states[n].stores[i], states[n].stores[j];
            y.at > x.entry.createdAt + cfg.ttl && x.call != y.call
  {
    RunKeeps(cfg, states, actions, n);
    var s := states[n];
    assert Apart(s, cfg, i, j) && PutRight(s, cfg, i) && PutRight(s, cfg, j);
  }

  /** How long a storing call took, by the clock, from reading the clock to its put. */
  ghost function Delay(x: Stored): int { x.at - x.entry.createdAt }

  /** Two calls stored a response for one key, and the first of them took `d`. */
  ghost predicate StoredTwice(cfg: Config, states: seq<State>, actions: seq<Action>, n: nat, i: nat, j: nat, d: nat) {
    && Run(cfg, states, actions) && n < |states| && i < j < |states[n].stores|
    && states[n].stores[i].id == states[n].stores[j].id && Delay(states[n].stores[i]) == d
  }

  /** In every run two puts for one key are more than `g` apart when the first call took `d`. */
  ghost predicate PutsApart(cfg: Config, d: nat, g: nat) {
    forall states: seq<State>, actions, n: nat, i: nat, j: nat :: StoredTwice(cfg, states, actions, n, i, j, d) ==>
      states[n].stores[j].at > states[n].stores[i].at + g
  }

  lemma Extend(cfg: Config, states: seq<State>, actions: seq<Action>, a: Action, t: State)
    requires Run(cfg, states, actions) && Stepped(cfg, states[|states| - 1], a, t)
    ensures Run(cfg, states + [t], actions + [a])
  {
    var ss, more := states + [t], actions + [a];
    forall i: nat | i < |more| ensures Stepped(cfg, ss[i], more[i], ss[i + 1]) {
      if i < |actions| {
        assert Stepped(cfg, states[i], actions[i], states[i + 1]);
      }
    }
  }

  /** One more step of a run, to a state given outright. */
  lemma Walk(cfg: Config, states: seq<State>, actions: seq<Action>, a: Action, t: State) returns (more: seq<State>, taken: seq<Action>)
    requires Run(cfg, states, actions) && Stepped(cfg, states[|states| - 1], a, t)
    ensures Run(cfg, more, taken) && more[|more| - 1] == t
  {
    Extend(cfg, states, actions, a, t);
    more, taken := states + [t], actions + [a];
  }

  /** From an empty backend, one call runs alone, its handler takes `d`, and it stores what it computed. */
  lemma StoreOne(cfg: Config, states0: seq<State>, actions0: seq<Action>, s: State, c: nat, r: Request, d: nat)
    returns (states: seq<State>, actions: seq<Action>)
    requires Run(cfg, states0, actions0) && states0[|states0| - 1] == s
    requires s.entries == map[] && s.owner == map[] && c !in s.calls && ValidKey(r.key)
    ensures Run(cfg, states, actions)
    ensures var e := Fresh(r, "", s.now, cfg.ttl);
            var done := Call(r, Done(s.now, Success("", false), Some(|s.stores|)));
            states[|states| - 1] == State(s.now + d, map[Id(r) := e], s.calls[c := done],
                                          s.stores + [Stored(c, Id(r), e, s.now + d)], map[Id(r) := |s.stores|])
  {
    var t := s.(calls := s.calls[c := Call(r, Started)]);
    states, actions := Walk(cfg, states0, actions0, Begin(c, r), t);
    t := s.(calls := s.calls[c := Call(r, Clocked(s.now))]);
    states, actions := Walk(cfg, states, actions, ReadClock(c), t);
    t := s.(calls := s.calls[c := Call(r, Missed(s.now))]);
    states, actions := Walk(cfg, states, actions, Get(c), t);
    t := s.(now := s.now + d, calls := s.calls[c := Call(r, Missed(s.now))]);
    states, actions := Walk(cfg, states, actions, Tick(d), t);
    t := s.(now := s.now + d, calls := s.calls[c := Call(r, Handled(s.now, ""))]);
    states, actions := Walk(cfg, states, actions, HandlerReturns(c, ""), t);
    states, actions := Walk(cfg, states, actions, Put(c), Next(t, cfg, Put(c)));
  }

  /** A call whose handler takes `d` stores an entry; a sweep removes it; a second call stores again. */
  lemma SlowThenAgain(cfg: Config, d: nat, g: nat) returns (states: seq<State>, actions: seq<Action>)
    requires ValidConfig(cfg) && g + d > cfg.ttl
    ensures exists n: nat, i: nat, j: nat :: StoredTwice(cfg, states, actions, n, i, j, d)
                              && states[n].stores[j].at <= states[n].stores[i].at + g
  {
    var r := Request("", "0123456789abcdef", "");
    var wait := if d > cfg.ttl then 0 else cfg.ttl + 1 - d;
    assert Run(cfg, [Init(0)], []);
    states, actions := StoreOne(cfg, [Init(0)], [], Init(0), 0, r, d);
    var s := states[|states| - 1];
    var t := s.(now := d + wait);
    states, actions := Walk(cfg, states, actions, Tick(wait), t);
    var u := t.(entries := map[], owner := map[]);
    states, actions := Walk(cfg, states, actions, Sweep(d + wait), u);
    states, actions := StoreOne(cfg, states, actions, u, 1, r, 0);
    TwoStored(cfg, states, actions, r, d, d + wait, g);
  }

  lemma TwoStored(cfg: Config, states: seq<State>, actions: seq<Action>, r: Request, d: nat, later: int, g: nat)
    requires Run(cfg, states, actions) && d <= later <= d + g
    requires states[|states| - 1].stores == [Stored(0, Id(r), Fresh(r, "", 0, cfg.ttl), d),
                                             Stored(1, Id(r), Fresh(r, "", later, cfg.ttl), later)]
    ensures exists n: nat, i: nat, j: nat :: StoredTwice(cfg, states, actions, n, i, j, d)
                              && states[n].stores[j].at <= states[n].stores[i].at + g
  {
    assert StoredTwice(cfg, states, actions, |states| - 1, 0, 1, d);
  }

  /** Two puts for one key are always more than `g` apart exactly when that and the first call's time fit in the TTL. */
  lemma PutsApartExactly(cfg: Config, d: nat, g: nat)
    requires ValidConfig(cfg)
    ensures PutsApart(cfg, d, g) <==> g + d <= cfg.ttl
  {
    if g + d <= cfg.ttl {
      forall states: seq<State>, actions, n: nat, i: nat, j: nat | StoredTwice(cfg, states, actions, n, i, j, d)
        ensures states[n].stores[j].at > states[n].stores[i].at + g
      {
        StoringCallsApart(cfg, states, actions, n, i, j);
      }
    } else {
      var states, actions := SlowThenAgain(cfg, d, g);
    }
  }

  // ---- how long an entry answers ----

  /** A call is about to look, `d` after the call that put entry `i` under the same key read its clock. */
  ghost predicate LooksAt(cfg: Config, states: seq<State>, actions: seq<Action>, n: nat, i: nat, c: nat, d: nat) {
    && Run(cfg, states, actions) && n < |states| && i < |states[n].stores|
    && Enabled(states[n], Get(c)) && states[n].owner.Keys == states[n].entries.Keys
    && Id(states[n].calls[c].request) == states[n].stores[i].id
    && states[n].now == states[n].stores[i].entry.createdAt + d
  }

  /** Looking ends the call with the entry's response, or with a conflict if the hashes differ. */
  ghost predicate AnsweredFrom(cfg: Config, s: State, c: nat, i: nat)
    requires Enabled(s, Get(c)) && s.owner.Keys == s.entries.Keys && i < |s.stores|
  {
    var p := Next(s, cfg, Get(c)).calls[c].phase;
    p.Done? && p.outcome == if s.calls[c].request.hash == s.stores[i].entry.hash
                            then Success(s.stores[i].entry.response, true) else Error(Conflict)
  }

  /** In every run, whoever looks `d` after an entry's clock reading is answered from the entry. */
  ghost predicate AlwaysAnswered(cfg: Config, d: nat) {
    forall states, actions, n: nat, i: nat, c: nat :: LooksAt(cfg, states, actions, n, i, c, d) ==>
      AnsweredFrom(cfg, states[n], c, i)
  }

  lemma AnsweredInTime(cfg: Config, states: seq<State>, actions: seq<Action>, n: nat, i: nat, c: nat, d: nat)
    requires ValidConfig(cfg) && LooksAt(cfg, states, actions, n, i, c, d) && d <= cfg.ttl
    ensures AnsweredFrom(cfg, states[n], c, i)
  {
    RunKeeps(cfg, states, actions, n);
    var s := states[n];
    assert KeptLongEnough(s, cfg, i) && PutRight(s, cfg, i) && ClockRight(s, c);
    hide Apart, AnswerRight, Run, Stepped;
  }

  /** Past the TTL a sweep may come first; then the call finds nothing and runs its handler. */
  lemma SweptIsForgotten(cfg: Config, d: nat) returns (states: seq<State>, actions: seq<Action>, n: nat)
    requires ValidConfig(cfg) && d > cfg.ttl
    ensures LooksAt(cfg, states, actions, n, 0, 1, d) && Next(states[n], cfg, Get(1)).calls[1].phase.Missed?
  {
    var r := Request("", "0123456789abcdef", "");
    assert Run(cfg, [Init(0)], []);
    states, actions := StoreOne(cfg, [Init(0)], [], Init(0), 0, r, 0);
    var s := states[|states| - 1].(now := d);
    states, actions := Walk(cfg, states, actions, Tick(d), s);
    s := s.(calls := s.calls[1 := Call(r, Started)]);
    states, actions := Walk(cfg, states, actions, Begin(1, r), s);
    s := s.(calls := s.calls[1 := Call(r, Clocked(d))]);
    states, actions := Walk(cfg, states, actions, ReadClock(1), s);
    s := s.(entries := map[], owner := map[]);
    states, actions := Walk(cfg, states, actions, Sweep(d), s);
    n := |states| - 1;
  }

  /** An entry always answers at an offset from its clock reading exactly when the offset is within the TTL. */
  lemma AnsweredExactly(cfg: Config, d: nat)
    requires ValidConfig(cfg)
    ensures AlwaysAnswered(cfg, d) <==> d <= cfg.ttl
  {
    if d <= cfg.ttl {
      forall states, actions, n: nat, i: nat, c: nat | LooksAt(cfg, states, actions, n, i, c, d)
        ensures AnsweredFrom(cfg, states[n], c, i)
      {
        AnsweredInTime(cfg, states, actions, n, i, c, d);
      }
    } else {
      var states, actions, n := SweptIsForgotten(cfg, d);
      assert !AnsweredFrom(cfg, states[n], 1, 0);
    }
  }

  /** Write-once: as long as a key stays in the backend, what is stored under it stays the same. */
  lemma {:induction false} WriteOnce(cfg: Config, states: seq<State>, actions: seq<Action>, m: nat, n: nat, k: string)
    requires Run(cfg, states, actions) && m <= n < |states|
    requires forall i :: m <= i <= n ==> k in states[i].entries
    ensures states[n].entries[k] == states[m].entries[k]
    decreases n - m
  {
    if m < n {
      WriteOnce(cfg, states, actions, m, n - 1, k);
      assert Stepped(cfg, states[n - 1], actions[n - 1], states[n - 1 + 1]);
    }
  }

  // ---- refinement of the atomic operation ----

  /** The step takes the call to its outcome as one atomic operation on the entries. */
  ghost predicate TakesEffect(cfg: Config, s: State, t: State, r: Request, clock: int, outcome: Outcome) {
    exists handled :: AtomicCall(s.entries, cfg, r, clock, handled) == Step(t.entries, outcome)
  }

  /** Where a call's effect may lie: the step at which it looked, or the step at which it put. */
  ghost predicate EffectAt(cfg: Config, states: seq<State>, actions: seq<Action>, i: nat, c: nat, r: Request, p: Phase)
    requires |states| == |actions| + 1 && p.Done?
  {
    i < |actions| && (actions[i] == Get(c) || actions[i] == Put(c))
    && TakesEffect(cfg, states[i], states[i + 1], r, p.clock, p.outcome)
  }

  /** A call that has looked and found nothing found nothing at some step of the run. */
  ghost predicate MissAt(states: seq<State>, actions: seq<Action>, i: nat, c: nat, r: Request)
    requires |states| == |actions| + 1
  {
    i < |actions| && actions[i] == Get(c) && Id(r) !in states[i].entries && states[i + 1].entries == states[i].entries
  }

  ghost predicate Explained(cfg: Config, states: seq<State>, actions: seq<Action>, n: nat, c: nat)
    requires |states| == |actions| + 1 && n < |states| && c in states[n].calls
  {
    var r, p := states[n].calls[c].request, states[n].calls[c].phase;
    match p
    case Done(_, _, _) => exists i :: 0 <= i < n && EffectAt(cfg, states, actions, i, c, r, p)
    case Missed(_) => exists i :: 0 <= i < n && MissAt(states, actions, i, c, r)
    case Handled(_, _) => exists i :: 0 <= i < n && MissAt(states, actions, i, c, r)
    case _ => true
  }

  lemma {:induction false} CallExplained(cfg: Config, states: seq<State>, actions: seq<Action>, n: nat, c: nat)
    requires Run(cfg, states, actions) && n < |states| && c in states[n].calls
    ensures Explained(cfg, states, actions, n, c)
  {
    hide TakesEffect;
    if n > 0 {
      var s, a, t := states[n - 1], actions[n - 1], states[n];
      assert Stepped(cfg, states[n - 1], actions[n - 1], states[n - 1 + 1]);
      if c in s.calls {
        CallExplained(cfg, states, actions, n - 1, c);
        if s.calls[c] == t.calls[c] {
          Carries(cfg, states, actions, n, c);
        } else {
          StepExplains(cfg, states, actions, n, c);
        }
      }
    }
  }

  lemma Carries(cfg: Config, states: seq<State>, actions: seq<Action>, n: nat, c: nat)
    requires |states| == |actions| + 1 && 0 < n < |states| && c in states[n].calls && c in states[n - 1].calls
    requires states[n].calls[c] == states[n - 1].calls[c] && Explained(cfg, states, actions, n - 1, c)
    ensures Explained(cfg, states, actions, n, c)
  {
    hide EffectAt, MissAt;
  }

  lemma StepExplains(cfg: Config, states: seq<State>, actions: seq<Action>, n: nat, c: nat)
    requires |states| == |actions| + 1 && 0 < n < |states| && c in states[n].calls && c in states[n - 1].calls
    requires Stepped(cfg, states[n - 1], actions[n - 1], states[n])
    requires states[n].calls[c] != states[n - 1].calls[c] && Explained(cfg, states, actions, n - 1, c)
    ensures Explained(cfg, states, actions, n, c)
  {
    var s, a, t := states[n - 1], actions[n - 1], states[n];
    var r := s.calls[c].request;
    match a
    case Get(_) =>
      if t.calls[c].phase.Done? {
        assert AtomicCall(s.entries, cfg, r, s.calls[c].phase.clock, None) == Step(t.entries, t.calls[c].phase.outcome);
        assert EffectAt(cfg, states, actions, n - 1, c, r, t.calls[c].phase);
      } else {
        assert MissAt(states, actions, n - 1, c, r);
      }
    case HandlerFails(_) =>
      var i :| 0 <= i < n - 1 && MissAt(states, actions, i, c, r);
      assert AtomicCall(states[i].entries, cfg, r, t.calls[c].phase.clock, None)
          == Step(states[i + 1].entries, Error(HandlerFailed));
      assert EffectAt(cfg, states, actions, i, c, r, t.calls[c].phase);
    case HandlerReturns(_, _) =>
      var i :| 0 <= i < n - 1 && MissAt(states, actions, i, c, r);
    case Put(_) =>
      assert AtomicCall(s.entries, cfg, r, s.calls[c].phase.clock, Some(s.calls[c].phase.computed))
          == Step(t.entries, t.calls[c].phase.outcome);
      assert EffectAt(cfg, states, actions, n - 1, c, r, t.calls[c].phase);
    case _ =>
  }

  /**
   Linearisation: every finished call has one step of its own, between its start and its end, at which
   the whole call is the atomic operation on the entries of that moment.
   */
  lemma EveryCallIsAtomic(cfg: Config, states: seq<State>, actions: seq<Action>, n: nat, c: nat)
    requires Run(cfg, states, actions) && n < |states| && c in states[n].calls && states[n].calls[c].phase.Done?
    ensures exists i :: 0 <= i < n && EffectAt(cfg, states, actions, i, c, states[n].calls[c].request, states[n].calls[c].phase)
  {
    CallExplained(cfg, states, actions, n, c);
  }

  /** Every change of the entries is a sweep or the atomic operation of the one call that is putting. */
  lemma NothingElseChanges(cfg: Config, s: State, a: Action)
    requires Inv(s, cfg) && Enabled(s, a)
    ensures var t := Next(s, cfg, a);
            t.entries == s.entries
            || (a.Sweep? && t.entries == Swept(s.entries, a.read))
            || (a.Put? && t.calls[a.c].phase.Done?
                && TakesEffect(cfg, s, t, s.calls[a.c].request, s.calls[a.c].phase.clock, t.calls[a.c].phase.outcome))
  {
    if a.Put? {
      var t := Next(s, cfg, a);
      var p := s.calls[a.c].phase;
      assert AtomicCall(s.entries, cfg, s.calls[a.c].request, p.clock, Some(p.computed))
          == Step(t.entries, t.calls[a.c].phase.outcome);
    }
  }

  /** What the wrapper answers when another call may have put first is what the step that puts answers. */
  lemma PutSettles(cfg: Config, s: State, c: nat)
    requires s.owner.Keys == s.entries.Keys && Enabled(s, Put(c))
    ensures var r, p := s.calls[c].request, s.calls[c].phase;
            var winner := if Id(r) in s.entries then Some(s.entries[Id(r)]) else None;
            Next(s, cfg, Put(c)).calls[c].phase.outcome
              == Settle(winner, winner.None?, p.computed, r.hash, p.clock, cfg.skew)
  {
  }

  // ---- a call that nothing interrupts ----

  /** The steps of a whole call, with what its handler does if it runs. */
  function Steps(s: State, c: nat, r: Request, handled: Option<string>): seq<Action> {
    [Begin(c, r), ReadClock(c), Get(c)] +
    if Id(r) in s.entries then []
    else if handled.None? then [HandlerFails(c)]
    else [HandlerReturns(c, handled.value), Put(c)]
  }

  /** The steps can be taken, one after the other, through these states. */
  ghost predicate Path(cfg: Config, states: seq<State>, actions: seq<Action>) {
    |states| == |actions| + 1 && forall i: nat | i < |actions| :: Stepped(cfg, states[i], actions[i], states[i + 1])
  }

  lemma OneMore(cfg: Config, states: seq<State>, actions: seq<Action>, a: Action) returns (more: seq<State>)
    requires Path(cfg, states, actions)
    requires states[|actions|].owner.Keys == states[|actions|].entries.Keys && Enabled(states[|actions|], a)
    ensures Path(cfg, more, actions + [a]) && more == states + [Next(states[|actions|], cfg, a)]
  {
    more := states + [Next(states[|actions|], cfg, a)];
    hide Next, Enabled;
    var longer := actions + [a];
    forall i: nat | i < |longer| ensures Stepped(cfg, more[i], longer[i], more[i + 1]) {
      if i < |actions| {
        assert Stepped(cfg, states[i], actions[i], states[i + 1]);
      }
    }
  }

  /** A call begins, reads the clock and looks. */
  lemma Look(cfg: Config, s: State, c: nat, r: Request) returns (states: seq<State>)
    requires s.owner.Keys == s.entries.Keys && c !in s.calls && ValidKey(r.key)
    ensures Path(cfg, states, [Begin(c, r), ReadClock(c), Get(c)]) && |states| == 4 && states[0] == s
    ensures var found := if Id(r) in s.entries then EvaluateExisting(s.entries[Id(r)], r.hash, s.now, cfg.skew) else Error(Expired);
            var p := if Id(r) in s.entries then Done(s.now, found, if found.Success? then Some(s.owner[Id(r)]) else None) else Missed(s.now);
            states[3] == s.(calls := s.calls[c := Call(r, p)])
  {
    hide EvaluateExisting, ScopeKey, ValidKey;
    var s1 := s.(calls := s.calls[c := Call(r, Started)]);
    var s2 := s.(calls := s.calls[c := Call(r, Clocked(s.now))]);
    states := [s, s1, s2, Next(s2, cfg, Get(c))];
    assert s2.calls == s1.calls[c := Call(r, Clocked(s.now))];
    assert forall p :: s2.calls[c := Call(r, p)] == s.calls[c := Call(r, p)];
  }

  /**
   A call that nothing interrupts is the one operation of the wrapper: its steps can all be taken, and they end
   with its outcome and with the entries it leaves; there is a step of its handler exactly when the wrapper ran it.
   */
  lemma UninterruptedCall(cfg: Config, s: State, c: nat, scope: string, key: string, hash: string, handled: Option<string>)
    returns (states: seq<State>)
    requires s.owner.Keys == s.entries.Keys && c !in s.calls && ValidKey(key)
    ensures var r := Request(scope, key, hash);
            var actions := Steps(s, c, r, handled);
            var whole := Wrap(s.entries, cfg, Key(key), Some(scope), Some(hash), s.now, handled);
            && Path(cfg, states, actions) && states[0] == s
            && (var t := states[|actions|];
                && c in t.calls && t.calls[c].phase.Done? && t.calls[c].phase.outcome == whole.outcome
                && t.entries == whole.entries && t.now == s.now)
            && (whole.ran <==> HandlerFails(c) in actions || exists x :: HandlerReturns(c, x) in actions)
  {
    var r := Request(scope, key, hash);
    states := Look(cfg, s, c, r);
    var t := states[3];
    assert key != "";
    hide EvaluateExisting, ScopeKey, ValidKey;
    if Id(r) in s.entries {
    } else if handled.None? {
      states := OneMore(cfg, states, Steps(s, c, r, handled)[..3], HandlerFails(c));
      assert Steps(s, c, r, handled) == Steps(s, c, r, handled)[..3] + [HandlerFails(c)];
      assert Steps(s, c, r, handled)[3] == HandlerFails(c);
    } else {
      var h := HandlerReturns(c, handled.value);
      states := OneMore(cfg, states, Steps(s, c, r, handled)[..3], h);
      assert Steps(s, c, r, handled)[..4] == Steps(s, c, r, handled)[..3] + [h];
      states := OneMore(cfg, states, Steps(s, c, r, handled)[..4], Put(c));
      assert Steps(s, c, r, handled) == Steps(s, c, r, handled)[..4] + [Put(c)];
      assert Steps(s, c, r, handled)[3] == h;
    }
  }
}
