/**
 Whole runs of a syncer against a growing and occasionally compacted registry feed, with failing stores,
 crashes in the middle of a page, and restarts.
 */
module SyncerRuns {
  import opened Text
  import opened FeedEvents
  import opened Syncer

  /**
   The registry's present history and the syncer. The rest is history. `dataEpoch` is the history of the feed
   that the data comes from. Within it, `memFrom` and `storeFrom` say where the replay that memory and store
   hold started, `high` is the furthest position whose event that replay delivered, and no key of the store is
   older than position `low`.
   */
  datatype State = State(
    feed: seq<Event>,
    epoch: nat,
    v: View,
    memFrom: Origin,
    storeFrom: Origin,
    low: nat,
    high: nat,
    dataEpoch: nat)

  datatype Action =
    | Append(more: seq<Event>)
    | Compact(history: seq<Event>)
    | Poll(r: Response)
    | Interrupted(q: nat, oks: seq<Persists>)
    | Crash
    | Start(hydrated: Parts)

  function Init(feed: seq<Event>): State {
    State(feed, 0, View(map[], map[], Begin, Begin, 0, false), NOTHING, NOTHING, 0, 0, 0)
  }

  /** The registry still knows the cursor. */
  predicate Current(c: Cursor, epoch: nat) { c.Begin? || c.epoch == epoch }

  /** A cursor of the present history. */
  predicate Here(c: Cursor, epoch: nat) { c.At? && c.epoch == epoch }

  predicate Serves(s: State, q: nat) {
    s.v.running && Current(s.v.cur, s.epoch) && Pos(s.v.cur) <= q <= |s.feed|
  }

  predicate Enabled(s: State, a: Action) {
    match a
    case Append(_) => true
    case Compact(_) => true
    case Poll(PollFailed) => s.v.running
    case Poll(CursorExpired(_, _)) => s.v.running && !Current(s.v.cur, s.epoch)
    case Poll(Page(events, next, oks, _)) =>
      var q := Pos(s.v.cur) + |events|;
      && Serves(s, q) && events == s.feed[Pos(s.v.cur)..q] && |oks| == |events|
      && (next.Some? ==> next.value == At(q, s.epoch))
    case Interrupted(q, oks) => Serves(s, q) && |oks| == q - Pos(s.v.cur)
    case Crash => s.v.running
    case Start(_) => !s.v.running
  }

  /** A replay of the present history starts at `p`, over whatever memory and store hold. */
  function Rebased(s: State, p: nat): State {
    s.(memFrom := Origin(s.v.mem, p), storeFrom := Origin(s.v.store, p), low := p, high := p, dataEpoch := s.epoch)
  }

  /** Before a page: data of another history counts as what the replay starts over. */
  function Based(s: State): State { if s.dataEpoch == s.epoch then s else Rebased(s, Pos(s.v.cur)) }

  /** After the events from the cursor up to `q`. */
  function Delivered(s: State, q: nat, failed: bool): State {
    s.(low := if failed then Pos(s.v.cur) else q, high := Max(s.high, q))
  }

  /** After a clear that reached only some of the store. */
  function PartlyCleared(s: State, cleared: Parts): State {
    var w := s.(v := s.v.(mem := map[], store := Without(s.v.store, cleared)), memFrom := NOTHING, low := 0);
    if s.storeFrom.at == 0 then w.(storeFrom := Origin(Without(s.storeFrom.base, cleared), 0))
    else w.(storeFrom := Origin(w.v.store, 0), high := 0)
  }

  /** A new process carries the replay on where the store allows it, and otherwise starts another over the store. */
  function Resumed(s: State, hydrated: Parts): State {
    var w := s.(v := Started(s.v, hydrated));
    if s.dataEpoch != s.epoch || !Current(w.v.cur, s.epoch) then w
    else if s.storeFrom.at <= Pos(w.v.cur) <= s.low
    then w.(memFrom := Origin(Only(s.storeFrom.base, hydrated), s.storeFrom.at))
    else Rebased(w, Pos(w.v.cur))
  }

  function Next(s: State, a: Action): State
    requires Enabled(s, a)
  {
    match a
    case Append(more) => s.(feed := s.feed + more)
    case Compact(history) => s.(feed := history, epoch := s.epoch + 1)
    case Poll(PollFailed) => s
    case Poll(CursorExpired(cleared, saveOk)) =>
      var v := Iterate(s.v, CursorExpired(cleared, saveOk));
      if All(cleared) then s.(v := v, memFrom := NOTHING, storeFrom := NOTHING, low := 0, high := 0, dataEpoch := s.epoch)
      else if s.dataEpoch == s.epoch then PartlyCleared(s, cleared)
      else s.(v := v)
    case Poll(Page(events, next, oks, saveOk)) =>
      Delivered(Based(s), Pos(s.v.cur) + |events|, AfterEvents(s.v, events, oks).failed)
        .(v := Iterate(s.v, Page(events, next, oks, saveOk)))
    case Interrupted(q, oks) =>
      var b := ApplyPage(Both(s.v.mem, s.v.store, false), s.feed, Pos(s.v.cur), q, oks);
      Delivered(Based(s), q, b.failed).(v := s.v.(mem := b.mem, store := b.store, running := false))
    case Crash => s.(v := s.v.(running := false))
    case Start(hydrated) => Resumed(s, hydrated)
  }

  // ---- the invariant ----

  ghost predicate Blend(feed: seq<Event>, o: Origin, db: Db, lo: nat, hi: nat) {
    o.at <= lo <= hi <= |feed| && forall k :: Within(feed, o, db, k, lo, hi)
  }

  ghost predicate CursorsRight(s: State) {
    && s.dataEpoch <= s.epoch
    && (s.v.cur.At? ==> s.v.cur.epoch <= s.epoch) && (s.v.saved.At? ==> s.v.saved.epoch <= s.epoch)
    && (s.v.running && Here(s.v.cur, s.epoch) ==> s.dataEpoch == s.epoch)
    && (Here(s.v.saved, s.epoch) ==> s.dataEpoch == s.epoch && s.v.saved.pos <= |s.feed|)
    && (s.v.running && !Current(s.v.cur, s.epoch) ==> !Here(s.v.saved, s.epoch))
  }

  ghost predicate DataRight(s: State) {
    s.dataEpoch == s.epoch ==>
      && Blend(s.feed, s.storeFrom, s.v.store, s.low, s.high)
      && (s.v.running && Current(s.v.cur, s.epoch) ==>
            && s.memFrom.at == s.storeFrom.at && Pos(s.v.cur) <= s.low
            && Blend(s.feed, s.memFrom, s.v.mem, Pos(s.v.cur), s.high))
  }

  ghost predicate Inv(s: State) { CursorsRight(s) && DataRight(s) }

  // ---- what keeps a blend ----

  lemma BlendLower(feed: seq<Event>, o: Origin, db: Db, lo: nat, lo': nat, hi: nat)
    requires Blend(feed, o, db, lo, hi) && o.at <= lo' <= lo
    ensures Blend(feed, o, db, lo', hi)
  {
    forall k ensures Within(feed, o, db, k, lo', hi) {
      assert Within(feed, o, db, k, lo, hi);
      var j: nat :| lo <= j <= hi && Get(db, k) == Value(feed, o, j, k);
    }
  }

  lemma BlendAppend(feed: seq<Event>, more: seq<Event>, o: Origin, db: Db, lo: nat, hi: nat)
    requires Blend(feed, o, db, lo, hi)
    ensures Blend(feed + more, o, db, lo, hi)
  {
    forall k ensures Within(feed + more, o, db, k, lo, hi) {
      assert Within(feed, o, db, k, lo, hi);
      var j: nat :| lo <= j <= hi && Get(db, k) == Value(feed, o, j, k);
      ValueStays(feed, more, o, j, k);
    }
  }

  /** What is there is where a replay of it starts. */
  lemma OriginBlend(feed: seq<Event>, db: Db, p: nat)
    requires p <= |feed|
    ensures Blend(feed, Origin(db, p), db, p, p)
  {
    forall k ensures Within(feed, Origin(db, p), db, k, p, p) {
      assert Get(db, k) == Value(feed, Origin(db, p), p, k);
    }
  }

  /** Leaving keys out of a blend that may reach back to the beginning. */
  lemma PartBlend(feed: seq<Event>, o: Origin, db: Db, base: Db, part: Db, lo: nat, hi: nat)
    requires Blend(feed, o, db, lo, hi) && o.at == 0
    requires forall k :: (Get(part, k) == Get(db, k) && Get(base, k) == Get(o.base, k)) || Get(part, k) == Get(base, k) == None
    ensures Blend(feed, Origin(base, 0), part, 0, hi)
  {
    forall k ensures Within(feed, Origin(base, 0), part, k, 0, hi) {
      assert Within(feed, o, db, k, lo, hi);
      if Get(part, k) == Get(base, k) == None {
        assert Get(part, k) == Value(feed, Origin(base, 0), 0, k);
      } else {
        var j: nat :| lo <= j <= hi && Get(db, k) == Value(feed, o, j, k);
        ValueSameBase(feed, o, Origin(base, 0), j, k);
      }
    }
  }

  lemma PageBlend(b: Both, feed: seq<Event>, m: Origin, s: Origin, p: nat, q: nat, oks: seq<Persists>, hi: nat)
    requires p <= q <= |feed| && |oks| == q - p
    requires Blend(feed, m, b.mem, p, hi) && Blend(feed, s, b.store, p, hi)
    ensures var c := ApplyPage(b, feed, p, q, oks);
            && Blend(feed, m, c.mem, p, Max(hi, q)) && Blend(feed, s, c.store, p, Max(hi, q))
            && (!c.failed ==> Blend(feed, m, c.mem, q, Max(hi, q)) && Blend(feed, s, c.store, q, Max(hi, q)))
  {
    hide Within;
    var c := ApplyPage(b, feed, p, q, oks);
    forall k ensures BothWithin(feed, m, s, c, k, p, q, Max(hi, q)) {
      PageWithin(b, feed, m, s, p, q, oks, hi, k);
    }
    hide ApplyPage;
    forall k
      ensures Within(feed, m, c.mem, k, p, Max(hi, q)) && Within(feed, s, c.store, k, p, Max(hi, q))
      ensures !c.failed ==> Within(feed, m, c.mem, k, q, Max(hi, q)) && Within(feed, s, c.store, k, q, Max(hi, q))
    {
      assert BothWithin(feed, m, s, c, k, p, q, Max(hi, q));
    }
  }

  // ---- each step ----

  lemma AppendKeeps(s: State, more: seq<Event>)
    requires Inv(s)
    ensures Inv(Next(s, Append(more)))
  {
    if s.dataEpoch == s.epoch {
      BlendAppend(s.feed, more, s.storeFrom, s.v.store, s.low, s.high);
      if s.v.running && Current(s.v.cur, s.epoch) {
        BlendAppend(s.feed, more, s.memFrom, s.v.mem, Pos(s.v.cur), s.high);
      }
    }
    hide Blend;
  }

  lemma NothingIsWithout(db: Db, cleared: Parts)
    requires All(cleared)
    ensures Without(db, cleared) == map[] && Only(db, cleared) == db
  {
    forall k <- db ensures Part(cleared, k) {}
  }

  lemma ExpiredKeeps(s: State, cleared: Parts, saveOk: bool)
    requires Inv(s) && Enabled(s, Poll(CursorExpired(cleared, saveOk)))
    ensures Inv(Next(s, Poll(CursorExpired(cleared, saveOk))))
  {
    if All(cleared) {
      NothingIsWithout(s.v.store, cleared);
      OriginBlend(s.feed, map[], 0);
    } else if s.dataEpoch == s.epoch {
      if s.storeFrom.at == 0 {
        PartBlend(s.feed, s.storeFrom, s.v.store, Without(s.storeFrom.base, cleared), Without(s.v.store, cleared),
                  s.low, s.high);
      } else {
        OriginBlend(s.feed, Without(s.v.store, cleared), 0);
      }
    }
    hide Blend;
  }

  lemma StartKeeps(s: State, hydrated: Parts)
    requires Inv(s) && Enabled(s, Start(hydrated))
    ensures Inv(Next(s, Start(hydrated)))
  {
    var v := Started(s.v, hydrated);
    if s.dataEpoch == s.epoch && Current(v.cur, s.epoch) {
      var p := Pos(v.cur);
      if s.storeFrom.at <= p <= s.low {
        if All(hydrated) {
          NothingIsWithout(s.v.store, hydrated);
          NothingIsWithout(s.storeFrom.base, hydrated);
          BlendLower(s.feed, s.storeFrom, s.v.store, s.low, p, s.high);
        } else {
          PartBlend(s.feed, s.storeFrom, s.v.store, Only(s.storeFrom.base, hydrated), v.mem, s.low, s.high);
        }
      } else {
        OriginBlend(s.feed, v.mem, p);
        OriginBlend(s.feed, v.store, p);
      }
    }
    hide Blend;
  }

  /** What a page finds: memory and store both hold the replay from the cursor on. */
  lemma PageFinds(s: State, q: nat)
    requires Inv(s) && Serves(s, q)
    ensures var w := Based(s);
            && w.dataEpoch == s.epoch && w.v == s.v && w.feed == s.feed && w.epoch == s.epoch
            && w.memFrom.at == w.storeFrom.at
            && Blend(s.feed, w.memFrom, s.v.mem, Pos(s.v.cur), w.high)
            && Blend(s.feed, w.storeFrom, s.v.store, Pos(s.v.cur), w.high)
  {
    if s.dataEpoch == s.epoch {
      BlendLower(s.feed, s.storeFrom, s.v.store, s.low, Pos(s.v.cur), s.high);
    } else {
      OriginBlend(s.feed, s.v.mem, Pos(s.v.cur));
      OriginBlend(s.feed, s.v.store, Pos(s.v.cur));
    }
    hide Blend;
  }

  lemma AfterEventsIsPage(s: State, events: seq<Event>, oks: seq<Persists>)
    requires |oks| == |events| && Pos(s.v.cur) + |events| <= |s.feed|
    requires events == s.feed[Pos(s.v.cur)..Pos(s.v.cur) + |events|]
    ensures AfterEvents(s.v, events, oks)
         == ApplyPage(Both(s.v.mem, s.v.store, false), s.feed, Pos(s.v.cur), Pos(s.v.cur) + |events|, oks)
  {
    hide ApplyPage;
    var p, n := Pos(s.v.cur), |events|;
    PageOfSlice(Both(s.v.mem, s.v.store, false), s.feed, p, p + n, n, oks);
  }

  lemma PageKeeps(s: State, events: seq<Event>, next: Option<Cursor>, oks: seq<Persists>, saveOk: bool)
    requires Inv(s) && Enabled(s, Poll(Page(events, next, oks, saveOk)))
    ensures Inv(Next(s, Poll(Page(events, next, oks, saveOk))))
  {
    var p := Pos(s.v.cur);
    var q := p + |events|;
    var w := Based(s);
    PageFinds(s, q);
    AfterEventsIsPage(s, events, oks);
    PageBlend(Both(s.v.mem, s.v.store, false), s.feed, w.memFrom, w.storeFrom, p, q, oks, w.high);
    hide ApplyPage, AfterEvents, Based, Blend;
  }

  lemma InterruptedKeeps(s: State, q: nat, oks: seq<Persists>)
    requires Inv(s) && Enabled(s, Interrupted(q, oks))
    ensures Inv(Next(s, Interrupted(q, oks)))
  {
    var p := Pos(s.v.cur);
    var w := Based(s);
    PageFinds(s, q);
    PageBlend(Both(s.v.mem, s.v.store, false), s.feed, w.memFrom, w.storeFrom, p, q, oks, w.high);
    hide ApplyPage, Based, Blend;
  }

  /** Every step of the registry, the syncer and its environment keeps the invariant. */
  lemma StepKeeps(s: State, a: Action)
    requires Inv(s) && Enabled(s, a)
    ensures Inv(Next(s, a))
  {
    match a
    case Append(more) => AppendKeeps(s, more);
    case Compact(_) =>
    case Poll(PollFailed) =>
    case Poll(CursorExpired(cleared, saveOk)) => ExpiredKeeps(s, cleared, saveOk);
    case Poll(Page(events, next, oks, saveOk)) => PageKeeps(s, events, next, oks, saveOk);
    case Interrupted(q, oks) => InterruptedKeeps(s, q, oks);
    case Crash =>
    case Start(hydrated) => StartKeeps(s, hydrated);
  }

  // ---- runs ----

  ghost predicate Stepped(s: State, a: Action, t: State) { Enabled(s, a) && t == Next(s, a) }

  /** A run: its states and the actions between them. */
  ghost predicate Run(states: seq<State>, actions: seq<Action>) {
    && |states| == |actions| + 1
    && (exists feed :: states[0] == Init(feed))
    && forall i: nat | i < |actions| :: Stepped(states[i], actions[i], states[i + 1])
  }

  lemma {:induction false} RunKeeps(states: seq<State>, actions: seq<Action>, n: nat)
    requires Run(states, actions) && n < |states|
    ensures Inv(states[n])
  {
    hide Inv, Next, Enabled;
    if n == 0 {
      StartsRight(states[0]);
    } else {
      RunKeeps(states, actions, n - 1);
      assert Stepped(states[n - 1], actions[n - 1], states[n - 1 + 1]);
      StepKeeps(states[n - 1], actions[n - 1]);
    }
  }

  lemma StartsRight(s: State)
    requires exists feed :: s == Init(feed)
    ensures Inv(s)
  {
    OriginBlend(s.feed, map[], 0);
  }

  /** The cursor is in the present history and has caught up with everything its replay delivered. */
  predicate CaughtUp(s: State) { s.v.running && Here(s.v.cur, s.epoch) && s.v.cur.pos == s.high }

  lemma BlendPoint(feed: seq<Event>, o: Origin, db: Db, n: nat)
    requires Blend(feed, o, db, n, n)
    ensures db == Replay(feed, o, n)
  {
    forall k ensures Get(db, k) == Get(Replay(feed, o, n), k) {
      assert Within(feed, o, db, k, n, n);
      ReplayValue(feed, o, n, k);
    }
    hide Replay, Value, Within;
    SameDb(db, Replay(feed, o, n));
  }

  /** In every run, a caught-up cursor means that memory and store are the replay from where it started. */
  lemma CaughtUpIsReplay(states: seq<State>, actions: seq<Action>, n: nat)
    requires Run(states, actions) && n < |states| && CaughtUp(states[n])
    ensures var s := states[n];
            && s.memFrom.at == s.storeFrom.at <= s.high <= |s.feed|
            && s.v.mem == Replay(s.feed, s.memFrom, s.high) && s.v.store == Replay(s.feed, s.storeFrom, s.high)
  {
    RunKeeps(states, actions, n);
    var s := states[n];
    BlendPoint(s.feed, s.memFrom, s.v.mem, s.high);
    BlendLower(s.feed, s.storeFrom, s.v.store, s.low, s.high, s.high);
    BlendPoint(s.feed, s.storeFrom, s.v.store, s.high);
  }

  /**
   Convergence, in every run, across persist failures, lost cursor saves, crashes in a page, partial clears,
   re-bootstraps and restarts: with a caught-up cursor, memory and store are the fold of the feed exactly when
   every key was touched since the replay started, or held then what the feed had left there.
   */
  lemma ConvergesExactly(states: seq<State>, actions: seq<Action>, n: nat)
    requires Run(states, actions) && n < |states| && CaughtUp(states[n])
    ensures var s := states[n];
            && s.memFrom.at <= s.high <= |s.feed| && s.storeFrom.at <= s.high && s.v.cur.pos == s.high
            && (s.v.mem == s.v.store == Fold(s.feed, s.high)
                <==> && (forall k :: Settled(s.feed, s.memFrom, s.high, k))
                     && (forall k :: Settled(s.feed, s.storeFrom, s.high, k)))
  {
    CaughtUpIsReplay(states, actions, n);
    var s := states[n];
    ReplayExactly(s.feed, s.memFrom, s.high);
    ReplayExactly(s.feed, s.storeFrom, s.high);
  }

  /** In between, every key holds what the replay left there at some position from the cursor on. */
  lemma NothingForgotten(states: seq<State>, actions: seq<Action>, n: nat, k: EntityKey)
    requires Run(states, actions) && n < |states| && states[n].v.running && Here(states[n].v.cur, states[n].epoch)
    ensures var s := states[n];
            && s.memFrom.at == s.storeFrom.at <= s.v.cur.pos <= s.high <= |s.feed|
            && (exists j: nat :: s.v.cur.pos <= j <= s.high && Get(s.v.mem, k) == Value(s.feed, s.memFrom, j, k))
            && (exists j: nat :: s.v.cur.pos <= j <= s.high && Get(s.v.store, k) == Value(s.feed, s.storeFrom, j, k))
  {
    RunKeeps(states, actions, n);
    var s := states[n];
    BlendLower(s.feed, s.storeFrom, s.v.store, s.low, s.v.cur.pos, s.high);
    assert Within(s.feed, s.memFrom, s.v.mem, k, s.v.cur.pos, s.high);
    assert Within(s.feed, s.storeFrom, s.v.store, k, s.v.cur.pos, s.high);
  }

  /**
   The cursor never passes an event that was not persisted: under every key that an event before the cursor
   touches, memory and store hold what that event or a later one wrote.
   */
  lemma PersistedOrOverwritten(states: seq<State>, actions: seq<Action>, n: nat, i: nat, k: EntityKey)
    requires Run(states, actions) && n < |states| && states[n].v.running && Here(states[n].v.cur, states[n].epoch)
    requires states[n].storeFrom.at <= i < states[n].v.cur.pos && i < |states[n].feed| && Touch(states[n].feed[i], k).Some?
    ensures var s := states[n];
            && (exists w: nat :: i <= w < |s.feed| && Touch(s.feed[w], k) == Some(Get(s.v.mem, k)))
            && (exists w: nat :: i <= w < |s.feed| && Touch(s.feed[w], k) == Some(Get(s.v.store, k)))
  {
    NothingForgotten(states, actions, n, k);
    var s := states[n];
    var j: nat :| s.v.cur.pos <= j <= s.high && Get(s.v.mem, k) == Value(s.feed, s.memFrom, j, k);
    LastWriter(s.feed, s.memFrom, i, j, k);
    var l: nat :| s.v.cur.pos <= l <= s.high && Get(s.v.store, k) == Value(s.feed, s.storeFrom, l, k);
    LastWriter(s.feed, s.storeFrom, i, l, k);
  }

  /** A page catches up when all of it is persisted, it moves the cursor, and it reaches far enough. */
  lemma PageCatchesUp(s: State, r: Response)
    requires r.Page? && Enabled(s, Poll(r)) && s.v.strikes < 2
    requires !AfterEvents(s.v, r.events, r.oks).failed && r.next.Some?
    requires s.dataEpoch == s.epoch ==> s.high <= Pos(s.v.cur) + |r.events|
    ensures CaughtUp(Next(s, Poll(r)))
  {
  }

  // ---- runs in which the replay never starts over data it does not know ----

  /**
   A page from the beginning of the feed is applied to nothing, or to data of that same history; and a start
   does not resume from a saved cursor that lies ahead of what the store holds.
   */
  predicate Sound(s: State, a: Action) {
    && ((a.Poll? && a.r.Page?) || a.Interrupted? ==> s.dataEpoch == s.epoch || (s.v.mem == map[] && s.v.store == map[]))
    && (a.Start? && All(a.hydrated) && Here(s.v.saved, s.epoch) ==> s.v.saved.pos <= s.low)
  }

  ghost predicate SoundRun(states: seq<State>, actions: seq<Action>) {
    Run(states, actions) && forall i: nat | i < |actions| :: SoundAt(states, actions, i)
  }

  ghost predicate SoundAt(states: seq<State>, actions: seq<Action>, i: nat)
    requires i < |actions| < |states|
  {
    Enabled(states[i], actions[i]) && Sound(states[i], actions[i])
  }

  /** What memory and store hold was replayed from the beginning over nothing. */
  ghost predicate FromNothing(s: State) {
    s.dataEpoch == s.epoch ==>
      s.storeFrom == NOTHING && (s.v.running && Current(s.v.cur, s.epoch) ==> s.memFrom == NOTHING)
  }

  lemma SoundStep(s: State, a: Action)
    requires Inv(s) && FromNothing(s) && Enabled(s, a) && Sound(s, a)
    ensures FromNothing(Next(s, a))
  {
    hide Blend;
    hide ApplyPage;
  }

  lemma {:induction false} SoundRunFromNothing(states: seq<State>, actions: seq<Action>, n: nat)
    requires SoundRun(states, actions) && n < |states|
    ensures FromNothing(states[n])
  {
    if n > 0 {
      SoundRunFromNothing(states, actions, n - 1);
      RunKeeps(states, actions, n - 1);
      assert Stepped(states[n - 1], actions[n - 1], states[n - 1 + 1]) && SoundAt(states, actions, n - 1);
      hide Inv, Next, Enabled, Sound, FromNothing;
      SoundStep(states[n - 1], actions[n - 1]);
    }
  }

  /** In every sound run a caught-up cursor means that memory and store are the fold of the feed. */
  lemma Converges(states: seq<State>, actions: seq<Action>, n: nat)
    requires SoundRun(states, actions) && n < |states| && CaughtUp(states[n])
    ensures states[n].v.cur.pos <= |states[n].feed|
    ensures states[n].v.mem == states[n].v.store == Fold(states[n].feed, states[n].v.cur.pos)
  {
    RunKeeps(states, actions, n);
    SoundRunFromNothing(states, actions, n);
    CaughtUpIsReplay(states, actions, n);
  }

  // ---- both conditions on the run are needed ----

  lemma Walk(states: seq<State>, actions: seq<Action>, a: Action, t: State) returns (more: seq<State>, taken: seq<Action>)
    requires Run(states, actions) && Stepped(states[|states| - 1], a, t)
    ensures Run(more, taken) && more[|more| - 1] == t && taken == actions + [a] && more == states + [t]
  {
    more, taken := states + [t], actions + [a];
    hide Next, Enabled;
    forall i: nat | i < |taken| ensures Stepped(more[i], taken[i], more[i + 1]) {
      if i < |actions| {
        assert Stepped(states[i], actions[i], states[i + 1]);
      }
    }
  }

  const FINE := Persists(true, true)
  const ALL := Parts(true, true, true)

  ghost predicate Diverged(s: State) {
    CaughtUp(s) && s.v.cur.pos <= |s.feed| && !(s.v.mem == s.v.store == Fold(s.feed, s.v.cur.pos))
  }

  /** A syncer that has applied an agent's arrival and departure, saved its cursor, and crashed. */
  lemma {:induction false} SyncedThenCrashed(feed: seq<Event>) returns (states: seq<State>, actions: seq<Action>)
    requires feed == [AgentChanged(Some(Profile("a", "1"))), AgentGone("a")]
    ensures Run(states, actions)
    ensures states[|states| - 1] == State(feed, 0, View(map[], map[], At(2, 0), At(2, 0), 0, false), NOTHING, NOTHING, 2, 2, 0)
  {
    var end := At(2, 0);
    states, actions := [Init(feed)], [];
    states, actions := Walk(states, actions, Start(ALL),
                            State(feed, 0, View(map[], map[], Begin, Begin, 0, true), NOTHING, NOTHING, 0, 0, 0));
    var page := Page(feed, Some(end), [FINE, FINE], true);
    WholePage(feed[0], feed[1]);
    assert feed[0..2] == feed;
    states, actions := Walk(states, actions, Poll(page),
                            State(feed, 0, View(map[], map[], end, end, 0, true), NOTHING, NOTHING, 2, 2, 0));
    states, actions := Walk(states, actions, Crash,
                            State(feed, 0, View(map[], map[], end, end, 0, false), NOTHING, NOTHING, 2, 2, 0));
  }

  /**
   After a crash while memory could not be hydrated, the syncer replays the feed from its beginning over the
   store. A crash before the first page is saved leaves the old cursor with the replayed, older data: the
   next start resumes past events whose effect is gone.
   */
  lemma UndercutCursorLosesEvents() returns (states: seq<State>, actions: seq<Action>)
    ensures Run(states, actions) && Diverged(states[|states| - 1])
  {
    var feed := [AgentChanged(Some(Profile("a", "1"))), AgentGone("a")];
    var end := At(2, 0);
    states, actions := SyncedThenCrashed(feed);
    states, actions := Walk(states, actions, Start(Parts(false, true, true)),
                            State(feed, 0, View(map[], map[], Begin, end, 0, true), NOTHING, NOTHING, 2, 2, 0));
    var early := map[AgentKey("a") := "1"];
    FirstEvent(feed);
    states, actions := Walk(states, actions, Interrupted(1, [FINE]),
                            State(feed, 0, View(early, early, Begin, end, 0, false), NOTHING, NOTHING, 1, 2, 0));
    var s := State(feed, 0, View(early, early, end, end, 0, true), Origin(early, 2), Origin(early, 2), 2, 2, 0);
    assert Only(early, ALL) == early;
    states, actions := Walk(states, actions, Start(ALL), s);
    FoldOfBoth(feed[0], feed[1]);
    assert AgentKey("a") in early;
  }

  lemma {:induction false} FirstEvent(feed: seq<Event>)
    requires |feed| > 0 && feed[0] == AgentChanged(Some(Profile("a", "1")))
    ensures var early := map[AgentKey("a") := "1"];
            ApplyPage(Both(map[], map[], false), feed, 0, 1, [FINE]) == Both(early, early, false)
  {
    var b := Both(map[], map[], false);
    assert ApplyPage(b, feed, 0, 0, []) == b;
    assert [FINE][..0] == [];
    assert Ops(feed[0]) == [Set(AgentKey("a"), "1")];
  }

  lemma {:induction false} WholePage(seen: Event, gone: Event)
    requires seen == AgentChanged(Some(Profile("a", "1"))) && gone == AgentGone("a")
    ensures ApplyPage(Both(map[], map[], false), [seen, gone], 0, 2, [FINE, FINE]) == Both(map[], map[], false)
  {
    FirstEvent([seen, gone]);
    assert [FINE, FINE][..1] == [FINE];
    assert Ops(gone) == [Delete(AgentKey("a")), DeleteGrants("a")];
  }

  lemma {:induction false} FoldOfBoth(seen: Event, gone: Event)
    requires seen == AgentChanged(Some(Profile("a", "1"))) && gone == AgentGone("a")
    ensures Fold([seen, gone], 2) == map[]
  {
    var feed := [seen, gone];
    assert Ops(feed[0]) == [Set(AgentKey("a"), "1")];
    assert Ops(feed[1]) == [Delete(AgentKey("a")), DeleteGrants("a")];
    forall k ensures Get(Fold(feed, 2), k) == Get(map[], k) {
      ReplayValue(feed, NOTHING, 2, k);
      assert Value(feed, NOTHING, 0, k) == None;
      assert Value(feed, NOTHING, 1, k) == if k == AgentKey("a") then Some("1") else None;
    }
    SameDb(Fold([seen, gone], 2), map[]);
  }

  /**
   A bootstrap that was interrupted before its first saved cursor leaves data behind; if the registry then
   compacts its history, what the new one does not mention stays forever.
   */
  lemma LeftoversSurviveCompaction() returns (states: seq<State>, actions: seq<Action>)
    ensures Run(states, actions) && Diverged(states[|states| - 1])
  {
    var feed := [AgentChanged(Some(Profile("a", "1")))];
    var left := map[AgentKey("a") := "1"];
    assert AgentKey("a") in left;
    states, actions := [Init(feed)], [];
    states, actions := Walk(states, actions, Start(ALL),
                            State(feed, 0, View(map[], map[], Begin, Begin, 0, true), NOTHING, NOTHING, 0, 0, 0));
    FirstEvent(feed);
    states, actions := Walk(states, actions, Interrupted(1, [FINE]),
                            State(feed, 0, View(left, left, Begin, Begin, 0, false), NOTHING, NOTHING, 1, 1, 0));
    states, actions := Walk(states, actions, Compact([]),
                            State([], 1, View(left, left, Begin, Begin, 0, false), NOTHING, NOTHING, 1, 1, 0));
    assert Only(left, ALL) == left;
    states, actions := Walk(states, actions, Start(ALL),
                            State([], 1, View(left, left, Begin, Begin, 0, true), NOTHING, NOTHING, 1, 1, 0));
    var page := Page([], Some(At(0, 1)), [], true);
    states, actions := Walk(states, actions, Poll(page),
                            State([], 1, View(left, left, At(0, 1), At(0, 1), 0, true), Origin(left, 0), Origin(left, 0), 0, 0, 1));
  }
}
