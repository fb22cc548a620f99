/**
 Runs of calls, passes and restarts as steps of a simple map from key to value
 and deadline, and of the table beside it.
 */
module TimedRuns {
  import opened Values
  import opened Expiry
  import opened Engine
  import opened Rehydration

  function Until(ttl: Option<Time>, now: Time): Option<Time> {
    match ttl
    case Some(seconds) => Some(now + seconds)
    case None => None
  }

  /** The rows a restart finds alive. */
  function LiveRows(table: Table, now: Time): Table {
    map k | k in table && (table[k].expireAt.Some? ==> now < table[k].expireAt.value) :: table[k]
  }

  function CellsOf(rows: Table): map<Key, Cell> {
    map k | k in rows :: Cell(rows[k].value, rows[k].expireAt)
  }

  /** The timed map `m` and the table `rows` become `m'` and `rows'`. */
  ghost predicate Follows(m: map<Key, Cell>, rows: Table, e: Event, m': map<Key, Cell>, rows': Table) {
    match e.call
    case Set(k, v, ttl) =>
      m' == m[k := Cell(v, Until(ttl, e.now))] && rows' == rows[k := Row(v, Until(ttl, e.now))]
    case Mset(d, ttl) =>
      m' == m + AllCells(d, Until(ttl, e.now)) && rows' == rows + RowsOf(AsMap(d), Until(ttl, e.now))
    case Delete(k) => m' == m - {k} && rows' == rows - {k}
    case Atomic(k, f, default) =>
      var c := if k in m then m[k] else Cell(default, None);
      m' == m[k := Cell(f(c.value), c.deadline)] && rows' == rows[k := Row(f(c.value), None)]
    case Pass =>
      && rows' == rows
      && (m' == m || exists k :: k in m && m[k].deadline.Some? && m[k].deadline.value <= e.now && m' == m - {k})
    case Restart(list) =>
      var live := LiveRows(rows, e.now);
      if Lists(list, live) then m' == CellsOf(live) && rows' == live else m' == m && rows' == rows
  }

  lemma LiveIsPurged(table: Table, now: Time)
    ensures LiveRows(table, now) == Purged(table, now)
  {}

  lemma ReopenedCells(table: Table, now: Time, list: seq<(Key, Row)>)
    requires Lists(list, Purged(table, now))
    ensures var t := Reopened(table, now, list);
      Valid(t) && Engine.Timed(t) == CellsOf(Purged(table, now)) && t.table == Purged(table, now)
  {
    var t, m := Reopened(table, now, list), CellsOf(Purged(table, now));
    ReopenedIsValid(table, now, list);
    ReopenedAt(table, now, list, "");
    forall k ensures LookupCell(m, k) == CellAt(t, k) {
      ReopenedAt(table, now, list, k);
    }
    TimedIs(t, m);
  }

  lemma RestartFollows(db: Db, now: Time, list: seq<(Key, Row)>)
    requires Valid(db)
    ensures Valid(Do(db, now, Restart(list)))
    ensures var t := Do(db, now, Restart(list));
      Follows(Engine.Timed(db), db.table, At(now, Restart(list)), Engine.Timed(t), t.table)
  {
    LiveIsPurged(db.table, now);
    if Lists(list, Purged(db.table, now)) { ReopenedCells(db.table, now, list); }
  }

  lemma MsetFollows(db: Db, now: Time, d: Dict, ttl: Option<Time>)
    requires Valid(db)
    ensures Valid(Do(db, now, Mset(d, ttl)))
    ensures var t := Do(db, now, Mset(d, ttl));
      Follows(Engine.Timed(db), db.table, At(now, Mset(d, ttl)), Engine.Timed(t), t.table)
  {
    var when := When(ttl, now);
    assert when == Until(ttl, now);
    MsetRefines(db, d, when);
    PairsRows(db.(contents := SetAll(db.contents, d)), d, when);
    assert DoMset(db, d, when).table == db.table + RowsOf(AsMap(d), when);
  }

  lemma SetFollows(db: Db, now: Time, key: Key, value: Value, ttl: Option<Time>)
    requires Valid(db)
    ensures Valid(Do(db, now, Set(key, value, ttl)))
    ensures var t := Do(db, now, Set(key, value, ttl));
      Follows(Engine.Timed(db), db.table, At(now, Set(key, value, ttl)), Engine.Timed(t), t.table)
  {
    assert When(ttl, now) == Until(ttl, now);
    SetRefines(db, key, value, When(ttl, now));
  }

  lemma AtomicFollows(db: Db, now: Time, key: Key, f: Value -> Value, default: Value)
    requires Valid(db)
    ensures Valid(Do(db, now, Atomic(key, f, default)))
    ensures var t := Do(db, now, Atomic(key, f, default));
      Follows(Engine.Timed(db), db.table, At(now, Atomic(key, f, default)), Engine.Timed(t), t.table)
  {
    AtomicRefines(db, key, f, default);
  }

  lemma DoFollows(db: Db, now: Time, call: Call)
    requires Valid(db)
    ensures Valid(Do(db, now, call))
    ensures Follows(Engine.Timed(db), db.table, At(now, call), Engine.Timed(Do(db, now, call)), Do(db, now, call).table)
  {
    match call
    case Set(k, v, ttl) => SetFollows(db, now, k, v, ttl);
    case Mset(d, ttl) => MsetFollows(db, now, d, ttl);
    case Delete(k) => DeleteRefines(db, k);
    case Atomic(k, f, default) => AtomicFollows(db, now, k, f, default);
    case Pass => PassRefines(db, now);
    case Restart(list) => RestartFollows(db, now, list);
  }

  /**
   Over any run store and index together are a map from key to value and
   deadline, and every call is a step of that map and of the table.
   */
  lemma {:induction false} RunFollowsTheTimedMap(run: seq<Event>, i: nat)
    requires i < |run|
    ensures var s, t := Exec(run[..i]).db, Exec(run[..i + 1]).db;
      && Valid(s) && Valid(t)
      && Follows(Engine.Timed(s), s.table, run[i], Engine.Timed(t), t.table)
  {
    AlwaysValid(run[..i]);
    assert run[..i + 1][..i] == run[..i];
    DoFollows(Exec(run[..i]).db, run[i].now, run[i].call);
  }

  ghost function Passes(now: Time, n: nat): seq<Event> {
    seq(n, _ => At(now, Pass))
  }

  lemma PassesSnoc(run: seq<Event>, now: Time, n: nat)
    requires n > 0
    ensures Exec(run + Passes(now, n)).db == DoPass(Exec(run + Passes(now, n - 1)).db, now)
  {
    var all := run + Passes(now, n);
    assert all[..|all| - 1] == run + Passes(now, n - 1);
  }

  ghost function Passed(db: Db, now: Time, n: nat): Db {
    if n == 0 then db else DoPass(Passed(db, now, n - 1), now)
  }

  lemma {:induction false} PassesArePassed(run: seq<Event>, now: Time, n: nat)
    ensures Exec(run + Passes(now, n)).db == Passed(Exec(run).db, now, n)
  {
    if n == 0 {
      assert run + Passes(now, 0) == run;
    } else {
      PassesArePassed(run, now, n - 1);
      PassesSnoc(run, now, n);
    }
  }

  lemma {:induction false} PassFirst(db: Db, now: Time, n: nat)
    requires n > 0
    ensures Passed(db, now, n) == Passed(DoPass(db, now), now, n - 1)
  {
    if n > 1 { PassFirst(db, now, n - 1); }
  }

  lemma {:induction false} EnoughPasses(db: Db, now: Time, n: nat)
    requires n >= |db.sched.pending|
    ensures Passed(db, now, n) == RunToWait(db, now)
    decreases n
  {
    if n > 0 {
      PassFirst(db, now, n);
      if HasDue(db, now) {
        assert |DoPass(db, now).sched.pending| == |db.sched.pending| - 1;
        EnoughPasses(DoPass(db, now), now, n - 1);
      } else {
        NothingMoves(db, now, n - 1);
      }
    }
  }

  lemma {:induction false} NothingMoves(db: Db, now: Time, n: nat)
    requires !HasDue(db, now)
    ensures Passed(db, now, n) == db
  {
    if n > 0 { NothingMoves(db, now, n - 1); }
  }

  /** As many passes as there are entries leave exactly the keys whose deadline has not come. */
  lemma EnoughPassesDrain(run: seq<Event>, now: Time, n: nat)
    requires n >= |Exec(run).db.sched.pending|
    ensures var s, t := Exec(run).db, Exec(run + Passes(now, n)).db;
      && Valid(s) && Valid(t)
      && Engine.Timed(t) == map k | k in Engine.Timed(s) && Outlives(Engine.Timed(s)[k], now) :: Engine.Timed(s)[k]
  {
    var s := Exec(run).db;
    AlwaysValid(run);
    PassesArePassed(run, now, n);
    EnoughPasses(s, now, n);
    LoopDrains(s, now);
    DrainedTimed(s, now);
  }
}
