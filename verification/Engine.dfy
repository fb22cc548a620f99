/**
 The engine one call at a time: the store's contents, the expiry index and the
 write-through table change together. Each API call, and each pop of the
 scheduler with its check and delete, is one step.
 */
module Engine {
  import opened Values
  import opened Expiry

  datatype Row = Row(value: Value, expireAt: Option<Time>)

  type Table = map<Key, Row>

  datatype Db = Db(contents: Contents, sched: Sched, table: Table)

  const FRESH := Db(map[], IDLE, map[])

  function When(ttl: Option<Time>, now: Time): Option<Time> {
    if ttl.Some? then Some(now + ttl.value) else None
  }

  /** Schedule at `when`, or cancel if there is none. */
  function Planned(s: Sched, key: Key, when: Option<Time>): Sched {
    if when.Some? then Scheduled(s, key, when.value) else Cancelled(s, key)
  }

  function DoSet(db: Db, key: Key, value: Value, when: Option<Time>): Db {
    Db(db.contents[key := value], Planned(db.sched, key, when), db.table[key := Row(value, when)])
  }

  /** The second half of `mset`: index and table, pair by pair. */
  function WithPairs(db: Db, d: seq<(Key, Value)>, when: Option<Time>): Db {
    if d == [] then db
    else
      var n := |d| - 1;
      var db1 := WithPairs(db, d[..n], when);
      Db(db1.contents, Planned(db1.sched, d[n].0, when), db1.table[d[n].0 := Row(d[n].1, when)])
  }

  function DoMset(db: Db, d: Dict, when: Option<Time>): Db {
    WithPairs(db.(contents := SetAll(db.contents, d)), d, when)
  }

  function DoDelete(db: Db, key: Key): Db {
    Db(db.contents - {key}, Cancelled(db.sched, key), db.table - {key})
  }

  /** `atomic` writes its result through without a deadline and leaves the index alone. */
  function DoAtomic(db: Db, key: Key, f: Value -> Value, default: Value): Db {
    var value := f(GetOr(db.contents, key, default));
    db.(contents := db.contents[key := value], table := db.table[key := Row(value, None)])
  }

  function AfterPop(db: Db, e: Entry): Db {
    Db(if IsCurrent(db.sched, e) then db.contents - {e.key} else db.contents, Popped(db.sched, e), db.table)
  }

  ghost predicate HasDue(db: Db, now: Time) {
    db.sched.pending != {} && First(db.sched).when <= now
  }

  /** One pass of the scheduler; the table is not told. */
  ghost function DoPass(db: Db, now: Time): Db {
    if HasDue(db, now) then AfterPop(db, First(db.sched)) else db
  }

  // ---- restart ------------------------------------------------------------------

  predicate IsLive(row: Row, now: Time) {
    row.expireAt.None? || row.expireAt.value > now
  }

  /** What `load_all` leaves in the table. */
  function Purged(table: Table, now: Time): Table {
    map k | k in table && IsLive(table[k], now) :: table[k]
  }

  /** One row of the constructor's loop. */
  function WithRow(db: Db, key: Key, row: Row): Db {
    Db(db.contents[key := row.value],
       if row.expireAt.Some? then Scheduled(db.sched, key, row.expireAt.value) else db.sched,
       db.table)
  }

  function WithRows(db: Db, rows: seq<(Key, Row)>): Db {
    if rows == [] then db
    else WithRow(WithRows(db, rows[..|rows| - 1]), rows[|rows| - 1].0, rows[|rows| - 1].1)
  }

  /** `rows` is what `load_all` returns: the live rows, in whatever order the table gives them. */
  ghost predicate Lists(rows: seq<(Key, Row)>, live: Table) {
    && (forall i, j :: 0 <= i < j < |rows| ==> rows[i].0 != rows[j].0)
    && (forall i :: 0 <= i < |rows| ==> rows[i].0 in live && live[rows[i].0] == rows[i].1)
    && (forall k :: k in live ==> exists i :: 0 <= i < |rows| && rows[i].0 == k)
  }

  /** A new process on the old table. */
  function Reopened(table: Table, now: Time, rows: seq<(Key, Row)>): Db {
    WithRows(Db(map[], IDLE, Purged(table, now)), rows)
  }

  // ---- the simple map behind it ----------------------------------------------------

  datatype Cell = Cell(value: Value, deadline: Option<Time>)

  ghost predicate Valid(db: Db) {
    Ok(db.sched) && forall k :: k in Deadlines(db.sched) ==> k in db.contents
  }

  ghost function DeadlineAt(s: Sched, key: Key): Option<Time>
    requires Ok(s)
  {
    if key in Deadlines(s) then Some(Deadlines(s)[key]) else None
  }

  /** A key to its value and, perhaps, its deadline. */
  ghost function Timed(db: Db): map<Key, Cell>
    requires Valid(db)
  {
    map k | k in db.contents :: Cell(db.contents[k], DeadlineAt(db.sched, k))
  }

  ghost function CellAt(db: Db, key: Key): Option<Cell>
    requires Ok(db.sched)
  {
    if key in db.contents then Some(Cell(db.contents[key], DeadlineAt(db.sched, key))) else None
  }

  ghost function LookupCell(m: map<Key, Cell>, key: Key): Option<Cell> {
    if key in m then Some(m[key]) else None
  }

  /** Two timed maps are the same if they are at every key. */
  lemma TimedIs(db: Db, m: map<Key, Cell>)
    requires Valid(db) && forall k :: LookupCell(m, k) == CellAt(db, k)
    ensures Timed(db) == m
  {
    forall k ensures (k in Timed(db) <==> k in m) && (k in m ==> Timed(db)[k] == m[k]) {
      assert LookupCell(m, k) == CellAt(db, k);
    }
  }

  lemma PlanAt(s: Sched, key: Key, when: Option<Time>, k: Key)
    requires Ok(s)
    ensures Ok(Planned(s, key, when))
    ensures DeadlineAt(Planned(s, key, when), k) == if k == key then when else DeadlineAt(s, k)
  {
    if when.Some? { ScheduleUpdates(s, key, when.value); } else { CancelRemoves(s, key); }
  }

  /** `set` gives the key its value and the new deadline, or none at all. */
  lemma {:induction false} SetRefines(db: Db, key: Key, value: Value, when: Option<Time>)
    requires Valid(db)
    ensures Valid(DoSet(db, key, value, when))
    ensures Timed(DoSet(db, key, value, when)) == Timed(db)[key := Cell(value, when)]
  {
    var t := DoSet(db, key, value, when);
    PlanAt(db.sched, key, when, key);
    forall k | k in Deadlines(t.sched) ensures k in t.contents {
      PlanAt(db.sched, key, when, k);
      assert DeadlineAt(t.sched, k).Some?;
    }
    forall k ensures LookupCell(Timed(db)[key := Cell(value, when)], k) == CellAt(t, k) {
      PlanAt(db.sched, key, when, k);
    }
    TimedIs(t, Timed(db)[key := Cell(value, when)]);
  }

  /** `delete` takes the key out with its deadline. */
  lemma DeleteRefines(db: Db, key: Key)
    requires Valid(db)
    ensures Valid(DoDelete(db, key))
    ensures Timed(DoDelete(db, key)) == Timed(db) - {key}
  {
    CancelRemoves(db.sched, key);
  }

  /** `atomic` changes the value and keeps the deadline. */
  lemma AtomicRefines(db: Db, key: Key, f: Value -> Value, default: Value)
    requires Valid(db)
    ensures Valid(DoAtomic(db, key, f, default))
    ensures Timed(DoAtomic(db, key, f, default))
         == Timed(db)[key := Cell(f(if key in Timed(db) then Timed(db)[key].value else default),
                                  if key in Timed(db) then Timed(db)[key].deadline else None)]
  {}

  /** A pass is the expiry of one key at or after its deadline, or nothing. */
  lemma {:induction false} PassRefines(db: Db, now: Time)
    requires Valid(db)
    ensures Valid(DoPass(db, now))
    ensures Timed(DoPass(db, now)) == Timed(db) ||
      exists k :: k in Timed(db) && Timed(db)[k].deadline.Some? && Timed(db)[k].deadline.value <= now
               && Timed(DoPass(db, now)) == Timed(db) - {k}
  {
    if HasDue(db, now) {
      var e := First(db.sched);
      PopRemovesOrNothing(db.sched, e);
      if IsCurrent(db.sched, e) {
        assert e.key in Timed(db) && Timed(db)[e.key].deadline == Some(e.when);
        assert Timed(DoPass(db, now)) == Timed(db) - {e.key};
      }
    }
  }

  lemma {:induction false} PairsPlan(db: Db, d: seq<(Key, Value)>, when: Option<Time>, key: Key)
    requires Ok(db.sched)
    ensures var t := WithPairs(db, d, when);
      && t.contents == db.contents && Ok(t.sched)
      && DeadlineAt(t.sched, key) == (if key in AsMap(d) then when else DeadlineAt(db.sched, key))
      && (key in AsMap(d) ==> key in t.table && t.table[key] == Row(AsMap(d)[key], when))
      && (key !in AsMap(d) ==> (key in t.table <==> key in db.table) && (key in t.table ==> t.table[key] == db.table[key]))
  {
    if d != [] {
      var n := |d| - 1;
      PairsPlan(db, d[..n], when, key);
      PlanAt(WithPairs(db, d[..n], when).sched, d[n].0, when, key);
      AsMapSnoc(d);
    }
  }

  /** A new deadline replaces the old one; none takes it out. */
  lemma PlanDeadlines(s: Sched, key: Key, when: Option<Time>)
    requires Ok(s)
    ensures Ok(Planned(s, key, when))
    ensures Deadlines(Planned(s, key, when)) == if when.Some? then Deadlines(s)[key := when.value] else Deadlines(s) - {key}
  {
    if when.Some? { ScheduleUpdates(s, key, when.value); } else { CancelRemoves(s, key); }
  }

  /** The second half of `mset` gives every key of the batch the one deadline, and its row. */
  lemma PairsDeadlines(db: Db, d: seq<(Key, Value)>, when: Option<Time>)
    requires Ok(db.sched)
    ensures Ok(WithPairs(db, d, when).sched)
    ensures forall k ::
      DeadlineAt(WithPairs(db, d, when).sched, k) == if k in AsMap(d) then when else DeadlineAt(db.sched, k)
  {
    PairsPlan(db, d, when, "");
    forall k ensures DeadlineAt(WithPairs(db, d, when).sched, k) == if k in AsMap(d) then when else DeadlineAt(db.sched, k) {
      PairsPlan(db, d, when, k);
    }
  }

  function RowsOf(m: Contents, when: Option<Time>): Table {
    map k | k in m :: Row(m[k], when)
  }

  lemma PairsRows(db: Db, d: seq<(Key, Value)>, when: Option<Time>)
    requires Ok(db.sched)
    ensures WithPairs(db, d, when).table == db.table + RowsOf(AsMap(d), when)
  {
    var t, rows := WithPairs(db, d, when).table, db.table + RowsOf(AsMap(d), when);
    forall k ensures (k in t <==> k in rows) && (k in t ==> t[k] == rows[k]) {
      PairsPlan(db, d, when, k);
    }
  }

  lemma {:induction false} AsMapSnoc(d: seq<(Key, Value)>)
    requires d != []
    ensures AsMap(d) == AsMap(d[..|d| - 1])[d[|d| - 1].0 := d[|d| - 1].1]
  {
    var n := |d| - 1;
    SetAllIsOverride(map[], d);
    SetAllIsOverride(map[], d[..n]);
    SetAllSnoc(map[], d[..n], d[n].0, d[n].1);
    assert d == d[..n] + [(d[n].0, d[n].1)];
  }

  ghost function AllCells(d: Dict, when: Option<Time>): map<Key, Cell> {
    map k | k in AsMap(d) :: Cell(AsMap(d)[k], when)
  }

  lemma MsetAt(db: Db, d: Dict, when: Option<Time>, key: Key)
    requires Valid(db)
    ensures var t := DoMset(db, d, when);
      && Ok(t.sched)
      && (key in Deadlines(t.sched) ==> key in t.contents)
      && CellAt(t, key) == if key in AsMap(d) then Some(Cell(AsMap(d)[key], when)) else CellAt(db, key)
  {
    SetAllIsOverride(db.contents, d);
    PairsPlan(db.(contents := SetAll(db.contents, d)), d, when, key);
    assert DeadlineAt(DoMset(db, d, when).sched, key).Some? <==> key in Deadlines(DoMset(db, d, when).sched);
  }

  /** `mset` overrides all its keys at once and gives them one deadline. */
  lemma MsetRefines(db: Db, d: Dict, when: Option<Time>)
    requires Valid(db)
    ensures Valid(DoMset(db, d, when))
    ensures Timed(DoMset(db, d, when)) == Timed(db) + AllCells(d, when)
  {
    var t := DoMset(db, d, when);
    MsetAt(db, d, when, "");
    forall k | k in Deadlines(t.sched) ensures k in t.contents {
      MsetAt(db, d, when, k);
    }
    forall k ensures LookupCell(Timed(db) + AllCells(d, when), k) == CellAt(t, k) {
      MsetAt(db, d, when, k);
    }
    TimedIs(t, Timed(db) + AllCells(d, when));
  }

  // ---- draining ------------------------------------------------------------------

  /** What is left once the scheduler has nothing due at T any more. */
  ghost function Drained(db: Db, now: Time): Db
    requires Ok(db.sched)
  {
    Db(map k | k in db.contents && !(k in Deadlines(db.sched) && Deadlines(db.sched)[k] <= now) :: db.contents[k],
       db.sched.(pending := set e | e in db.sched.pending && e.when > now),
       db.table)
  }

  /** Passes until the loop would wait. */
  ghost function RunToWait(db: Db, now: Time): Db
    decreases |db.sched.pending|
  {
    if HasDue(db, now) then RunToWait(DoPass(db, now), now) else db
  }

  lemma PassTowardsDrained(db: Db, now: Time)
    requires Valid(db) && HasDue(db, now)
    ensures Valid(DoPass(db, now))
    ensures Drained(DoPass(db, now), now) == Drained(db, now)
  {
    PassRefines(db, now);
    var e := First(db.sched);
    PopRemovesOrNothing(db.sched, e);
    var a, b := Drained(DoPass(db, now), now), Drained(db, now);
    assert a.sched.pending == b.sched.pending;
    assert a.contents == b.contents;
  }

  lemma NothingDueIsDrained(db: Db, now: Time)
    requires Valid(db) && !HasDue(db, now)
    ensures Drained(db, now) == db
  {
    assert forall e :: e in db.sched.pending ==> e.when > now;
    assert Drained(db, now).sched.pending == db.sched.pending;
    forall k | k in Deadlines(db.sched) ensures Deadlines(db.sched)[k] > now {
      DeadlineIsDue(db.sched, k, Deadlines(db.sched)[k]);
    }
    assert Drained(db, now).contents == db.contents;
  }

  /** The loop reaches its wait, and then exactly the keys due are gone. */
  lemma {:induction false} LoopDrains(db: Db, now: Time)
    requires Valid(db)
    ensures RunToWait(db, now) == Drained(db, now)
    decreases |db.sched.pending|
  {
    if HasDue(db, now) {
      PassTowardsDrained(db, now);
      LoopDrains(DoPass(db, now), now);
    } else {
      NothingDueIsDrained(db, now);
    }
  }

  predicate Outlives(c: Cell, now: Time) {
    c.deadline.None? || c.deadline.value > now
  }

  lemma DrainedAt(db: Db, now: Time, key: Key)
    requires Valid(db)
    ensures Ok(Drained(db, now).sched)
    ensures CellAt(Drained(db, now), key)
         == if CellAt(db, key).Some? && Outlives(CellAt(db, key).value, now) then CellAt(db, key) else None
    ensures key in Deadlines(Drained(db, now).sched) ==> key in Drained(db, now).contents
  {
    var s, t := db.sched, Drained(db, now).sched;
    if key in Deadlines(s) { DeadlineIsDue(s, key, Deadlines(s)[key]); }
    if key in Deadlines(t) {
      DeadlineIsDue(t, key, Deadlines(t)[key]);
      DeadlineIsDue(s, key, Deadlines(t)[key]);
    }
    if key in Deadlines(s) && Deadlines(s)[key] > now { DeadlineIsDue(t, key, Deadlines(s)[key]); }
  }

  /** Draining removes the keys whose deadline has come and touches no other key or deadline. */
  lemma DrainedTimed(db: Db, now: Time)
    requires Valid(db)
    ensures Valid(Drained(db, now))
    ensures Timed(Drained(db, now)) == map k | k in Timed(db) && Outlives(Timed(db)[k], now) :: Timed(db)[k]
  {
    var m := map k | k in Timed(db) && Outlives(Timed(db)[k], now) :: Timed(db)[k];
    DrainedAt(db, now, "");
    forall k | k in Deadlines(Drained(db, now).sched) ensures k in Drained(db, now).contents {
      DrainedAt(db, now, k);
    }
    forall k ensures LookupCell(m, k) == CellAt(Drained(db, now), k) {
      DrainedAt(db, now, k);
    }
    TimedIs(Drained(db, now), m);
  }

  // ---- how long a key lives -------------------------------------------------------

  /** The scheduler reaches its wait at each of these times in turn. */
  ghost function Drains(db: Db, times: seq<Time>): Db {
    if times == [] then db else RunToWait(Drains(db, times[..|times| - 1]), times[|times| - 1])
  }

  ghost predicate OutlivesAll(c: Cell, times: seq<Time>) {
    forall i :: 0 <= i < |times| ==> Outlives(c, times[i])
  }

  lemma OutlivesOneMore(c: Cell, times: seq<Time>)
    requires times != []
    ensures OutlivesAll(c, times) <==> OutlivesAll(c, times[..|times| - 1]) && Outlives(c, times[|times| - 1])
  {
    var n := |times| - 1;
    if OutlivesAll(c, times[..n]) && Outlives(c, times[n]) {
      forall i | 0 <= i < |times| ensures Outlives(c, times[i]) {
        if i < n { assert times[..n][i] == times[i]; }
      }
    }
  }

  /** Once the scheduler waits, a cell is still there if it outlives the time. */
  lemma WaitAt(db: Db, now: Time, key: Key)
    requires Valid(db)
    ensures Valid(RunToWait(db, now)) && RunToWait(db, now).table == db.table
    ensures CellAt(RunToWait(db, now), key)
         == if CellAt(db, key).Some? && Outlives(CellAt(db, key).value, now) then CellAt(db, key) else None
  {
    LoopDrains(db, now);
    DrainedTimed(db, now);
    DrainedAt(db, now, key);
  }

  lemma {:induction false} DrainsAt(db: Db, times: seq<Time>, key: Key)
    requires Valid(db)
    ensures Valid(Drains(db, times)) && Drains(db, times).table == db.table
    ensures CellAt(Drains(db, times), key)
         == if CellAt(db, key).Some? && OutlivesAll(CellAt(db, key).value, times) then CellAt(db, key) else None
  {
    if times != [] {
      var n := |times| - 1;
      DrainsAt(db, times[..n], key);
      WaitAt(Drains(db, times[..n]), times[n], key);
      if CellAt(db, key).Some? { OutlivesOneMore(CellAt(db, key).value, times); }
    }
  }

  /** A cell lives on exactly as long as no drain comes at or after its deadline. */
  lemma CellLivesOn(db: Db, key: Key, value: Value, deadline: Option<Time>, times: seq<Time>)
    requires Valid(db) && CellAt(db, key) == Some(Cell(value, deadline))
    ensures var t := Drains(db, times);
      && (key in t.contents <==> (deadline.Some? ==> forall i :: 0 <= i < |times| ==> times[i] < deadline.value))
      && (key in t.contents ==> t.contents[key] == value)
  {
    DrainsAt(db, times, key);
    var c := Cell(value, deadline);
    assert forall i :: 0 <= i < |times| ==> (Outlives(c, times[i]) <==> (deadline.Some? ==> times[i] < deadline.value));
  }

  lemma SetAt(db: Db, key: Key, value: Value, when: Option<Time>)
    requires Valid(db)
    ensures Valid(DoSet(db, key, value, when)) && CellAt(DoSet(db, key, value, when), key) == Some(Cell(value, when))
  {
    SetRefines(db, key, value, when);
    PlanAt(db.sched, key, when, key);
  }

  /** A key set with a ttl lives through every drain before `now + ttl` and through none at or after; one set without lives on. */
  lemma SetLivesForItsTtl(db: Db, key: Key, value: Value, ttl: Option<Time>, now: Time, times: seq<Time>)
    requires Valid(db)
    ensures var t := Drains(DoSet(db, key, value, When(ttl, now)), times);
      && (key in t.contents <==> (ttl.Some? ==> forall i :: 0 <= i < |times| ==> times[i] < now + ttl.value))
      && (key in t.contents ==> t.contents[key] == value)
  {
    SetAt(db, key, value, When(ttl, now));
    CellLivesOn(DoSet(db, key, value, When(ttl, now)), key, value, When(ttl, now), times);
  }

  /** So does every key of a batch. */
  lemma MsetLivesForItsTtl(db: Db, d: Dict, ttl: Option<Time>, now: Time, times: seq<Time>, i: nat)
    requires Valid(db) && i < |d|
    ensures var t := Drains(DoMset(db, d, When(ttl, now)), times);
      && (d[i].0 in t.contents <==> (ttl.Some? ==> forall j :: 0 <= j < |times| ==> times[j] < now + ttl.value))
      && (d[i].0 in t.contents ==> t.contents[d[i].0] == d[i].1)
  {
    MsetRefines(db, d, When(ttl, now));
    MsetAt(db, d, When(ttl, now), d[i].0);
    AsMapAt(d, i);
    CellLivesOn(DoMset(db, d, When(ttl, now)), d[i].0, d[i].1, When(ttl, now), times);
  }
}
