/**
 The syncer's loop: it applies pages of the registry feed to memory and store, advances and saves a cursor
 once a page is persisted, and starts over when the registry no longer knows its cursor.
 */
module Syncer {
  import opened Text
  import opened FeedEvents

  /** A position in the feed, in the registry's present history or an earlier one; or none. */
  datatype Cursor = Begin | At(pos: nat, epoch: nat)

  function Pos(c: Cursor): nat { if c.At? then c.pos else 0 }

  /** Which of properties, authorizations and agents went well. */
  datatype Parts = Parts(properties: bool, auth: bool, agents: bool)

  predicate All(p: Parts) { p.properties && p.auth && p.agents }

  predicate Part(p: Parts, k: EntityKey) {
    match k
    case PropertyKey(_) => p.properties
    case AuthKey(_, _, _) => p.auth
    case AgentKey(_) => p.agents
  }

  /** What one poll meets: a page, an expired cursor, or some other failure; and how the store behaves. */
  datatype Response =
    | Page(events: seq<Event>, next: Option<Cursor>, oks: seq<Persists>, saveOk: bool)
    | CursorExpired(cleared: Parts, saveOk: bool)
    | PollFailed

  /** The syncer's state; `running` ends when the cursor could not be saved three times in a row. */
  datatype View = View(mem: Db, store: Db, cur: Cursor, saved: Cursor, strikes: nat, running: bool)

  function Without(db: Db, p: Parts): Db { map k | k in db && !Part(p, k) :: db[k] }

  function Only(db: Db, p: Parts): Db { map k | k in db && Part(p, k) :: db[k] }

  function AfterEvents(v: View, events: seq<Event>, oks: seq<Persists>): Both
    requires |oks| == |events|
  {
    ApplyPage(Both(v.mem, v.store, false), events, 0, |events|, oks)
  }

  predicate WellFormed(r: Response) { r.Page? ==> |r.oks| == |r.events| }

  /** One iteration of the loop. */
  function Iterate(v: View, r: Response): View
    requires WellFormed(r)
  {
    match r
    case PollFailed => v
    case CursorExpired(cleared, saveOk) =>
      var w := v.(mem := map[], store := Without(v.store, cleared));
      if !All(cleared) then w
      else w.(cur := Begin, saved := if saveOk then Begin else v.saved)
    case Page(events, next, oks, saveOk) =>
      var b := AfterEvents(v, events, oks);
      var w := v.(mem := b.mem, store := b.store);
      if b.failed || next.None? then w
      else if saveOk then w.(cur := next.value, saved := next.value, strikes := 0)
      else w.(cur := next.value, strikes := v.strikes + 1, running := v.strikes + 1 < 3)
  }

  /** A new process: memory from the store, and the saved cursor unless memory is incomplete. */
  function Started(v: View, hydrated: Parts): View {
    v.(mem := Only(v.store, hydrated),
       cur := if !All(hydrated) && v.saved != Begin then Begin else v.saved,
       strikes := 0,
       running := true)
  }

  class Loop {
    var mem: Db
    var store: Db
    var cursorVal: Cursor
    var saved: Cursor
    var saveFailures: nat
    var running: bool

    constructor (store: Db, saved: Cursor, hydrated: Parts)
      ensures forall v: View :: v.store == store && v.saved == saved ==> Value() == Started(v, hydrated)
      ensures this.store == store && this.saved == saved && saveFailures == 0 && running
      ensures forall k :: k in mem <==>
                k in store && if k.PropertyKey? then hydrated.properties else if k.AuthKey? then hydrated.auth else hydrated.agents
      ensures forall k <- mem :: mem[k] == store[k]
      ensures cursorVal == if hydrated.properties && hydrated.auth && hydrated.agents then saved else Begin
    {
      this.store, this.saved := store, saved;
      mem := Only(store, hydrated);
      cursorVal := if !All(hydrated) && saved != Begin then Begin else saved;
      saveFailures := 0;
      running := true;
    }

    function Value(): View
      reads this
    {
      View(mem, store, cursorVal, saved, saveFailures, running)
    }

    method Write(op: Op, ok: bool)
      modifies this`mem, this`store
      ensures mem == ApplyOp(old(mem), op) && store == if ok then ApplyOp(old(store), op) else old(store)
    {
      mem := ApplyOp(mem, op);
      if ok {
        store := ApplyOp(store, op);
      }
    }

    method Deliver(e: Event, oks: Persists) returns (failed: bool)
      modifies this`mem, this`store
      ensures forall was :: Both(mem, store, was || failed) == ApplyEvent(Both(old(mem), old(store), was), e, oks)
    {
      var ops := Ops(e);
      if |ops| == 0 {
        return false;
      }
      Write(ops[0], oks.first);
      if !oks.first {
        return true;
      }
      if |ops| > 1 {
        Write(ops[1], oks.second);
        return !oks.second;
      }
      return false;
    }

    method DeliverPage(events: seq<Event>, oks: seq<Persists>) returns (failed: bool)
      requires |oks| == |events|
      modifies this`mem, this`store
      ensures Both(mem, store, failed) == AfterEvents(old(Value()), events, oks)
    {
      failed := false;
      for i := 0 to |events|
        invariant Both(mem, store, failed) == ApplyPage(Both(old(mem), old(store), false), events, 0, i, oks[..i])
      {
        var f := Deliver(events[i], oks[i]);
        assert oks[..i + 1][..i] == oks[..i];
        failed := failed || f;
      }
      assert oks[..|events|] == oks;
    }

    /** One iteration; the result says whether the loop goes on. */
    method Poll(r: Response) returns (again: bool)
      requires running && WellFormed(r)
      modifies this
      ensures Value() == Iterate(old(Value()), r) && again == running
      // a poll that failed changes nothing
      ensures r.PollFailed? ==> Value() == old(Value())
      // a page moves the cursor only when all of it was persisted, and the saved one only with it
      ensures r.Page? ==>
                && mem == AfterEvents(old(Value()), r.events, r.oks).mem && store == AfterEvents(old(Value()), r.events, r.oks).store
                && (AfterEvents(old(Value()), r.events, r.oks).failed || r.next.None? ==>
                      cursorVal == old(cursorVal) && saved == old(saved) && saveFailures == old(saveFailures) && running)
                && (!AfterEvents(old(Value()), r.events, r.oks).failed && r.next.Some? ==>
                      && cursorVal == r.next.value
                      && (r.saveOk ==> saved == r.next.value && saveFailures == 0 && running)
                      && (!r.saveOk ==> saved == old(saved) && saveFailures == old(saveFailures) + 1
                                        && (running <==> saveFailures < 3)))
      // an expired cursor clears memory and what can be cleared of the store, and is dropped when that was all
      ensures r.CursorExpired? ==>
                && mem == map[] && saveFailures == old(saveFailures) && running
                && (forall k :: k in store <==>
                      k in old(store) && !(if k.PropertyKey? then r.cleared.properties
                                           else if k.AuthKey? then r.cleared.auth else r.cleared.agents))
                && (forall k <- store :: store[k] == old(store)[k])
                && (if r.cleared.properties && r.cleared.auth && r.cleared.agents
                    then cursorVal == Begin && saved == if r.saveOk then Begin else old(saved)
                    else cursorVal == old(cursorVal) && saved == old(saved))
    {
      match r
      case PollFailed => return true;
      case CursorExpired(cleared, saveOk) =>
        mem := map[];
        store := Without(store, cleared);
        if !All(cleared) {
          return true;
        }
        cursorVal := Begin;
        if saveOk {
          saved := Begin;
        }
        return true;
      case Page(events, next, oks, saveOk) =>
        var failed := DeliverPage(events, oks);
        if failed {
          return true;
        }
        if next.Some? {
          cursorVal := next.value;
          if saveOk {
            saved := cursorVal;
            saveFailures := 0;
          } else {
            saveFailures := saveFailures + 1;
            if saveFailures >= 3 {
              running := false;
              return false;
            }
          }
        }
        return true;
    }
  }
}
