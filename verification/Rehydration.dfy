/**
 Write-through and restart: over any run of calls, passes of the scheduler and
 restarts, does the table rebuild what the drained engine holds?

 It does, although expiry never deletes a row, as long as `atomic` is not
 called on a key whose deadline is pending. `atomic` writes such a key through
 with no deadline while the deadline stays in memory; the key is then
 *unfaithful* until something writes or deletes its row again.
 */
module Rehydration {
  import opened Values
  import opened Expiry
  import opened Engine

  datatype Call =
    | Set(key: Key, value: Value, ttl: Option<Time>)
    | Mset(mapping: Dict, ttl: Option<Time>)
    | Delete(key: Key)
    | Atomic(key: Key, f: Value -> Value, default: Value)
    | Pass                                // the scheduler pops one entry, if one is due
    | Restart(rows: seq<(Key, Row)>)      // a new process loads the table

  datatype Event = At(now: Time, call: Call)

  ghost function Do(db: Db, now: Time, call: Call): Db {
    match call
    case Set(k, v, ttl) => DoSet(db, k, v, When(ttl, now))
    case Mset(d, ttl) => DoMset(db, d, When(ttl, now))
    case Delete(k) => DoDelete(db, k)
    case Atomic(k, f, default) => DoAtomic(db, k, f, default)
    case Pass => DoPass(db, now)
    case Restart(rows) => if Lists(rows, Purged(db.table, now)) then Reopened(db.table, now, rows) else db
  }

  /** A caller can see this before the call: `key` has a deadline to come. */
  ghost predicate IsPending(s: Sched, key: Key) {
    exists d :: Due(s, key, d)
  }

  /** `atomic` on a pending deadline makes a key unfaithful; the next write or delete of its row mends it. */
  ghost function Unfaithful(db: Db, now: Time, call: Call, before: set<Key>): set<Key> {
    match call
    case Set(k, _, _) => before - {k}
    case Mset(d, _) => before - AsMap(d).Keys
    case Delete(k) => before - {k}
    case Atomic(k, _, _) => if IsPending(db.sched, k) then before + {k} else before - {k}
    case Pass => before
    case Restart(rows) => if Lists(rows, Purged(db.table, now)) then {} else before
  }

  datatype History = History(db: Db, unfaithful: set<Key>)

  ghost function Exec(run: seq<Event>): History {
    if run == [] then History(FRESH, {})
    else
      var h := Exec(run[..|run| - 1]);
      var e := run[|run| - 1];
      History(Do(h.db, e.now, e.call), Unfaithful(h.db, e.now, e.call, h.unfaithful))
  }

  predicate ClockNeverGoesBack(run: seq<Event>) {
    forall i, j :: 0 <= i <= j < |run| ==> run[i].now <= run[j].now
  }

  predicate UpTo(run: seq<Event>, now: Time) {
    forall i :: 0 <= i < |run| ==> run[i].now <= now
  }

  // ---- memory and table in step ------------------------------------------------

  /** What the table knows of a key by the time the clock shows `now`. */
  ghost predicate SyncAt(db: Db, unfaithful: set<Key>, now: Time, key: Key)
    requires Ok(db.sched)
  {
    if key in unfaithful then
      && key in db.table && db.table[key].expireAt == None
      && (key in db.contents ==> DeadlineAt(db.sched, key).Some?)
    else if key in db.contents then
      key in db.table && db.table[key] == Row(db.contents[key], DeadlineAt(db.sched, key))
    else
      key in db.table ==> db.table[key].expireAt.Some? && db.table[key].expireAt.value <= now
  }

  ghost predicate Sync(h: History, now: Time) {
    Valid(h.db) && forall k :: SyncAt(h.db, h.unfaithful, now, k)
  }

  lemma PendingIsDeadline(s: Sched, key: Key)
    requires Ok(s)
    ensures IsPending(s, key) <==> DeadlineAt(s, key).Some?
  {
    if key in Deadlines(s) { DeadlineIsDue(s, key, Deadlines(s)[key]); }
    if d :| Due(s, key, d) { DeadlineIsDue(s, key, d); }
  }

  lemma SetKeepsSync(h: History, t: Time, now: Time, k: Key, v: Value, when: Option<Time>, key: Key)
    requires Sync(h, t) && t <= now && Ok(DoSet(h.db, k, v, when).sched)
    ensures SyncAt(DoSet(h.db, k, v, when), h.unfaithful - {k}, now, key)
  {
    assert SyncAt(h.db, h.unfaithful, t, key);
    PlanAt(h.db.sched, k, when, key);
  }

  lemma MsetKeepsSync(h: History, t: Time, now: Time, d: Dict, when: Option<Time>, key: Key)
    requires Sync(h, t) && t <= now && Ok(DoMset(h.db, d, when).sched)
    ensures SyncAt(DoMset(h.db, d, when), h.unfaithful - AsMap(d).Keys, now, key)
  {
    assert SyncAt(h.db, h.unfaithful, t, key);
    SetAllIsOverride(h.db.contents, d);
    PairsPlan(h.db.(contents := SetAll(h.db.contents, d)), d, when, key);
  }

  lemma DeleteKeepsSync(h: History, t: Time, now: Time, k: Key, key: Key)
    requires Sync(h, t) && t <= now && Ok(DoDelete(h.db, k).sched)
    ensures SyncAt(DoDelete(h.db, k), h.unfaithful - {k}, now, key)
  {
    assert SyncAt(h.db, h.unfaithful, t, key);
    PlanAt(h.db.sched, k, None, key);
  }

  lemma AtomicKeepsSync(h: History, t: Time, now: Time, call: Call, key: Key)
    requires Sync(h, t) && t <= now && call.Atomic?
    ensures SyncAt(Do(h.db, now, call), Unfaithful(h.db, now, call, h.unfaithful), now, key)
  {
    assert SyncAt(h.db, h.unfaithful, t, key);
    PendingIsDeadline(h.db.sched, key);
  }

  lemma PassKeepsSync(h: History, t: Time, now: Time, key: Key)
    requires Sync(h, t) && t <= now && Ok(DoPass(h.db, now).sched)
    ensures SyncAt(DoPass(h.db, now), h.unfaithful, now, key)
  {
    assert SyncAt(h.db, h.unfaithful, t, key);
    if HasDue(h.db, now) { PopRemovesOrNothing(h.db.sched, First(h.db.sched)); }
  }

  // ---- what a restart rebuilds ---------------------------------------------------

  lemma IdleHasNoDeadlines()
    ensures Ok(IDLE) && Deadlines(IDLE) == map[]
  {
    DeadlinesAre(IDLE, map[]);
  }

  lemma WithRowAt(db: Db, row: (Key, Row), key: Key)
    requires Ok(db.sched) && row.0 !in Deadlines(db.sched) && row.0 !in db.contents
    ensures var t := WithRow(db, row.0, row.1);
      && Ok(t.sched) && t.table == db.table
      && (key in Deadlines(t.sched) ==> key == row.0 || key in Deadlines(db.sched))
      && CellAt(t, key) == if key == row.0 then Some(Cell(row.1.value, row.1.expireAt)) else CellAt(db, key)
  {
    if row.1.expireAt.Some? {
      PlanAt(db.sched, row.0, row.1.expireAt, key);
    }
  }

  function RowFor(rows: seq<(Key, Row)>, key: Key): Option<Row> {
    if rows == [] then None
    else if rows[|rows| - 1].0 == key then Some(rows[|rows| - 1].1)
    else RowFor(rows[..|rows| - 1], key)
  }

  lemma {:induction false} RowForFinds(rows: seq<(Key, Row)>, key: Key)
    ensures RowFor(rows, key).None? <==> forall i :: 0 <= i < |rows| ==> rows[i].0 != key
    ensures RowFor(rows, key).Some? ==> exists i :: 0 <= i < |rows| && rows[i] == (key, RowFor(rows, key).value)
  {
    if rows != [] {
      RowForFinds(rows[..|rows| - 1], key);
    }
  }

  function CellOf(row: Option<Row>): Option<Cell> {
    if row.Some? then Some(Cell(row.value.value, row.value.expireAt)) else None
  }

  /** Rows with different keys can come in any order: each makes its own cell. */
  lemma {:induction false} RowsAt(table: Table, rows: seq<(Key, Row)>, key: Key)
    requires forall i, j :: 0 <= i < j < |rows| ==> rows[i].0 != rows[j].0
    ensures var t := WithRows(Db(map[], IDLE, table), rows);
      && Ok(t.sched) && t.table == table
      && (key in Deadlines(t.sched) ==> key in t.contents)
      && CellAt(t, key) == CellOf(RowFor(rows, key))
  {
    if rows != [] {
      var n := |rows| - 1;
      RowsAt(table, rows[..n], key);
      var front := WithRows(Db(map[], IDLE, table), rows[..n]);
      assert rows[n].0 !in front.contents && rows[n].0 !in Deadlines(front.sched) by {
        RowsAt(table, rows[..n], rows[n].0);
        RowForFinds(rows[..n], rows[n].0);
      }
      WithRowAt(front, rows[n], key);
    } else {
      IdleHasNoDeadlines();
    }
  }

  lemma ReopenedAt(table: Table, now: Time, rows: seq<(Key, Row)>, key: Key)
    requires Lists(rows, Purged(table, now))
    ensures var t := Reopened(table, now, rows);
      && Ok(t.sched) && t.table == Purged(table, now)
      && (key in Deadlines(t.sched) ==> key in t.contents)
      && CellAt(t, key) == if key in table && IsLive(table[key], now)
                           then Some(Cell(table[key].value, table[key].expireAt)) else None
  {
    RowsAt(Purged(table, now), rows, key);
    RowForFinds(rows, key);
    if RowFor(rows, key).Some? {
      var i :| 0 <= i < |rows| && rows[i] == (key, RowFor(rows, key).value);
    } else {
      assert key !in Purged(table, now);
    }
  }

  lemma ReopenedIsValid(table: Table, now: Time, rows: seq<(Key, Row)>)
    requires Lists(rows, Purged(table, now))
    ensures Valid(Reopened(table, now, rows))
  {
    ReopenedAt(table, now, rows, "");
    forall k | k in Deadlines(Reopened(table, now, rows).sched) ensures k in Reopened(table, now, rows).contents {
      ReopenedAt(table, now, rows, k);
    }
  }

  lemma DoIsValid(db: Db, now: Time, call: Call)
    requires Valid(db)
    ensures Valid(Do(db, now, call))
  {
    match call
    case Set(k, v, ttl) => SetRefines(db, k, v, When(ttl, now));
    case Mset(d, ttl) => MsetRefines(db, d, When(ttl, now));
    case Delete(k) => DeleteRefines(db, k);
    case Atomic(k, f, default) => AtomicRefines(db, k, f, default);
    case Pass => PassRefines(db, now);
    case Restart(rows) => if Lists(rows, Purged(db.table, now)) { ReopenedIsValid(db.table, now, rows); }
  }

  lemma DoKeepsSync(h: History, t: Time, e: Event)
    requires Sync(h, t) && t <= e.now
    ensures Sync(History(Do(h.db, e.now, e.call), Unfaithful(h.db, e.now, e.call, h.unfaithful)), e.now)
  {
    DoIsValid(h.db, e.now, e.call);
    forall key ensures SyncAt(Do(h.db, e.now, e.call), Unfaithful(h.db, e.now, e.call, h.unfaithful), e.now, key) {
      assert SyncAt(h.db, h.unfaithful, t, key);
      match e.call
      case Set(k, v, ttl) => SetKeepsSync(h, t, e.now, k, v, When(ttl, e.now), key);
      case Mset(d, ttl) => MsetKeepsSync(h, t, e.now, d, When(ttl, e.now), key);
      case Delete(k) => DeleteKeepsSync(h, t, e.now, k, key);
      case Atomic(_, _, _) => AtomicKeepsSync(h, t, e.now, e.call, key);
      case Pass => PassKeepsSync(h, t, e.now, key);
      case Restart(rows) => if Lists(rows, Purged(h.db.table, e.now)) { ReopenedAt(h.db.table, e.now, rows, key); }
    }
  }

  lemma {:induction false} AlwaysInSync(run: seq<Event>, now: Time)
    requires ClockNeverGoesBack(run) && UpTo(run, now)
    ensures Sync(Exec(run), now)
  {
    if run != [] {
      var e := run[|run| - 1];
      AlwaysInSync(run[..|run| - 1], e.now);
      DoKeepsSync(Exec(run[..|run| - 1]), e.now, e);
      assert forall k :: SyncAt(Exec(run).db, Exec(run).unfaithful, e.now, k) ==>
        SyncAt(Exec(run).db, Exec(run).unfaithful, now, k);
    } else {
      IdleHasNoDeadlines();
    }
  }

  /** Keys with a pending deadline are always present, whatever the run. */
  lemma {:induction false} AlwaysValid(run: seq<Event>)
    ensures Valid(Exec(run).db)
  {
    if run == [] {
      IdleHasNoDeadlines();
    } else {
      AlwaysValid(run[..|run| - 1]);
      DoIsValid(Exec(run[..|run| - 1]).db, run[|run| - 1].now, run[|run| - 1].call);
    }
  }

  // ---- the round trip ---------------------------------------------------------------

  /** A key comes back as it was exactly if it is faithful. */
  lemma KeyRoundTrip(h: History, now: Time, rows: seq<(Key, Row)>, key: Key)
    requires Sync(h, now) && Lists(rows, Purged(h.db.table, now))
    ensures Valid(Reopened(h.db.table, now, rows)) && Valid(Drained(h.db, now))
    ensures CellAt(Reopened(h.db.table, now, rows), key) == CellAt(Drained(h.db, now), key)
       <==> key !in h.unfaithful
  {
    assert SyncAt(h.db, h.unfaithful, now, key);
    ReopenedAt(h.db.table, now, rows, key);
    ReopenedIsValid(h.db.table, now, rows);
    DrainedAt(h.db, now, key);
    DrainedTimed(h.db, now);
  }

  lemma TimedCell(db: Db, key: Key)
    requires Valid(db)
    ensures LookupCell(Engine.Timed(db), key) == CellAt(db, key)
  {}

  /**
   After any run with a clock that never goes back, a process restarted at
   `now` holds exactly the values and deadlines the old one is left with once
   its scheduler has run until it waits, if and only if no key is unfaithful.
   */
  lemma RoundTripIffFaithful(run: seq<Event>, now: Time, rows: seq<(Key, Row)>)
    requires ClockNeverGoesBack(run) && UpTo(run, now)
    requires Lists(rows, Purged(Exec(run).db.table, now))
    ensures var db := Exec(run).db;
      && Valid(Reopened(db.table, now, rows)) && Valid(RunToWait(db, now))
      && (Engine.Timed(Reopened(db.table, now, rows)) == Engine.Timed(RunToWait(db, now))
          <==> Exec(run).unfaithful == {})
  {
    var h := Exec(run);
    AlwaysInSync(run, now);
    LoopDrains(h.db, now);
    KeyRoundTrip(h, now, rows, "");
    var a, b := Reopened(h.db.table, now, rows), Drained(h.db, now);
    if k :| k in h.unfaithful {
      KeyRoundTrip(h, now, rows, k);
      TimedCell(a, k);
      TimedCell(b, k);
    } else {
      forall k ensures LookupCell(Engine.Timed(a), k) == CellAt(b, k) {
        KeyRoundTrip(h, now, rows, k);
        TimedCell(a, k);
      }
      TimedIs(b, Engine.Timed(a));
    }
  }

  /** One `atomic` call keeps a faithful engine restartable exactly if the key has no deadline to come. */
  lemma AtomicKeepsRoundTripIffNotPending(
    run: seq<Event>, e: Event, now: Time, rows: seq<(Key, Row)>)
    requires ClockNeverGoesBack(run + [e]) && UpTo(run + [e], now) && e.call.Atomic?
    requires Exec(run).unfaithful == {}
    requires Lists(rows, Purged(Exec(run + [e]).db.table, now))
    ensures var db := Exec(run + [e]).db;
      && Valid(Reopened(db.table, now, rows)) && Valid(RunToWait(db, now))
      && (Engine.Timed(Reopened(db.table, now, rows)) == Engine.Timed(RunToWait(db, now))
          <==> !IsPending(Exec(run).db.sched, e.call.key))
  {
    assert (run + [e])[..|run|] == run;
    RoundTripIffFaithful(run + [e], now, rows);
  }

  ghost predicate NeverAtomicOnPending(run: seq<Event>) {
    forall i :: 0 <= i < |run| && run[i].call.Atomic? ==> !IsPending(Exec(run[..i]).db.sched, run[i].call.key)
  }

  lemma {:induction false} NeverAtomicOnPendingIsFaithful(run: seq<Event>)
    requires NeverAtomicOnPending(run)
    ensures Exec(run).unfaithful == {}
  {
    if run != [] {
      var n := |run| - 1;
      forall i | 0 <= i < n && run[..n][i].call.Atomic?
        ensures !IsPending(Exec(run[..n][..i]).db.sched, run[..n][i].call.key)
      {
        assert run[..n][..i] == run[..i];
      }
      NeverAtomicOnPendingIsFaithful(run[..n]);
    }
  }

  const FORGETFUL: seq<Event> := [At(0.0, Set("a", Obj(0), Some(5.0))), At(1.0, Atomic("a", v => Obj(1), Null))]

  lemma ForgetfulTable()
    ensures Exec(FORGETFUL).unfaithful == {"a"}
    ensures Purged(Exec(FORGETFUL).db.table, 9.0) == map["a" := Row(Obj(1), None)]
  {
    var first := [FORGETFUL[0]];
    assert first[..0] == [] && FORGETFUL[..1] == first;
    assert Exec([]) == History(FRESH, {});
    var db := Exec(first).db;
    assert db == Do(FRESH, 0.0, FORGETFUL[0].call) && db.sched == Scheduled(IDLE, "a", 5.0);
    assert Due(db.sched, "a", 5.0);
  }

  /**
   The failing case: at time 9 the running engine has dropped the key, and a
   restart brings it back, without a deadline.
   */
  lemma AtomicForgetsTheDeadline(rows: seq<(Key, Row)>)
    requires Lists(rows, Purged(Exec(FORGETFUL).db.table, 9.0))
    ensures var db := Exec(FORGETFUL).db;
      && Valid(RunToWait(db, 9.0)) && "a" !in Engine.Timed(RunToWait(db, 9.0))
      && Valid(Reopened(db.table, 9.0, rows))
      && Engine.Timed(Reopened(db.table, 9.0, rows)) == map["a" := Cell(Obj(1), None)]
  {
    var h := Exec(FORGETFUL);
    ForgetfulTable();
    AlwaysInSync(FORGETFUL, 9.0);
    LoopDrains(h.db, 9.0);
    DrainedTimed(h.db, 9.0);
    var t := Reopened(h.db.table, 9.0, rows);
    ReopenedIsValid(h.db.table, 9.0, rows);
    forall k ensures LookupCell(map["a" := Cell(Obj(1), None)], k) == CellAt(t, k) {
      ReopenedAt(h.db.table, 9.0, rows, k);
      assert k in Purged(h.db.table, 9.0) <==> k == "a";
    }
    TimedIs(t, map["a" := Cell(Obj(1), None)]);
    ForgottenIsGone(h);
  }

  /** A key that memory still had at all would have a deadline, and the drain at 9 has taken what is due. */
  lemma ForgottenIsGone(h: History)
    requires h == Exec(FORGETFUL) && Valid(h.db)
    ensures Valid(Drained(h.db, 9.0)) && "a" !in Engine.Timed(Drained(h.db, 9.0))
  {
    DrainedTimed(h.db, 9.0);
    DrainedAt(h.db, 9.0, "a");
    var first := [FORGETFUL[0]];
    assert first[..0] == [] && FORGETFUL[..1] == first;
    assert Exec([]) == History(FRESH, {});
    IdleHasNoDeadlines();
    ScheduleUpdates(IDLE, "a", 5.0);
    assert Exec(first).db == Do(FRESH, 0.0, FORGETFUL[0].call) && h.db.sched == Scheduled(IDLE, "a", 5.0);
  }
}
