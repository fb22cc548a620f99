/** The public object: store, scheduler and backend updated together. */
module Nimbus {
  import opened Values
  import CasStore
  import Events
  import Registry
  import opened Expiry
  import Engine
  import Reactive
  import Scheduler
  import Backend
  import Rehydration

  class NimbusKV {
    const store: Reactive.ReactiveStore
    const scheduler: Scheduler.ExpiryScheduler
    const backend: Backend.SQLiteBackend

    ghost function View(): Engine.Db
      reads store, scheduler, backend
    {
      Engine.Db(store.Now(), scheduler.View(), backend.table)
    }

    ghost predicate Valid()
      reads store, scheduler
    {
      scheduler.store == store && store.maxRetries > 0 && scheduler.Valid()
    }

    /** Rehydration: the rows `load_all` returns are set and scheduled one by one before the thread starts. */
    constructor (backend: Backend.SQLiteBackend, now: Time)
      modifies backend
      ensures this.backend == backend && fresh(store) && fresh(scheduler)
      ensures Valid() && Engine.Valid(View())
      ensures exists rows :: Engine.Lists(rows, Engine.Purged(old(backend.table), now))
                          && View() == Engine.Reopened(old(backend.table), now, rows)
      ensures store.maxRetries == 1000
      ensures backend.table
           == map k | k in old(backend.table) && StillLive(old(backend.table)[k], now) :: old(backend.table)[k]
      ensures Mirrors(View())
    {
      this.backend := backend;
      var emptyStore := new Reactive.ReactiveStore(1000);
      store := emptyStore;
      scheduler := new Scheduler.ExpiryScheduler(emptyStore);
      new;
      ghost var table := backend.table;
      var rows := backend.LoadAll(now);
      Rehydrate(rows);
      Rehydration.ReopenedIsValid(table, now, rows);
      ReopenedMirrors(table, now, rows);
    }

    /** The constructor's loop. */
    method Rehydrate(rows: seq<(Key, Engine.Row)>)
      requires Valid()
      modifies store, scheduler
      ensures Valid() && View() == Engine.WithRows(old(View()), rows)
    {
      for i := 0 to |rows|
        invariant scheduler.Valid()
        invariant View() == Engine.WithRows(old(View()), rows[..i])
      {
        assert rows[..i + 1][..i] == rows[..i];
        var key, row := rows[i].0, rows[i].1;
        var ok := store.SetAlone(key, row.value);
        if row.expireAt.Some? { scheduler.Schedule(key, row.expireAt.value); }
      }
      assert rows[..|rows|] == rows;
    }

    /** A new deadline replaces the old one; none cancels it. */
    method Plan(key: Key, expireAt: Option<Time>)
      requires scheduler.Valid()
      modifies scheduler
      ensures scheduler.Valid() && scheduler.View() == Engine.Planned(old(scheduler.View()), key, expireAt)
    {
      if expireAt.Some? {
        scheduler.Schedule(key, expireAt.value);
      } else {
        scheduler.Cancel(key);
      }
    }

    method Set(key: Key, value: Value, ttl: Option<Time>, now: Time)
      requires Valid()
      modifies store, scheduler, backend
      ensures Valid() && View() == Engine.DoSet(old(View()), key, value, Engine.When(ttl, now))
      ensures store.WroteSerially(CasStore.Set(key, value), Events.DeleteEvent, true)
      ensures store.Now() == old(store.Now())[key := value]
      ensures Deadlines(scheduler.View())
           == if ttl.Some? then old(Deadlines(scheduler.View()))[key := now + ttl.value]
              else old(Deadlines(scheduler.View())) - {key}
      ensures backend.table
           == old(backend.table)[key := Engine.Row(value, if ttl.Some? then Some(now + ttl.value) else None)]
    {
      Engine.PlanDeadlines(scheduler.View(), key, Engine.When(ttl, now));
      var ok := store.SetAlone(key, value);
      var expireAt := Engine.When(ttl, now);
      Plan(key, expireAt);
      backend.PersistSet(key, value, expireAt);
    }

    method Mset(mapping: Dict, ttl: Option<Time>, now: Time)
      requires Valid()
      modifies store, scheduler, backend
      ensures Valid() && View() == Engine.DoMset(old(View()), mapping, Engine.When(ttl, now))
      ensures store.WroteSerially(CasStore.Mset(mapping), Events.DeleteEvent, true)
      ensures store.Now() == old(store.Now()) + AsMap(mapping)
      ensures forall k :: k in AsMap(mapping) ==>
        Engine.DeadlineAt(scheduler.View(), k) == if ttl.Some? then Some(now + ttl.value) else None
      ensures forall k :: k !in AsMap(mapping) ==>
        Engine.DeadlineAt(scheduler.View(), k) == old(Engine.DeadlineAt(scheduler.View(), k))
      ensures backend.table == old(backend.table)
        + Engine.RowsOf(AsMap(mapping), if ttl.Some? then Some(now + ttl.value) else None)
    {
      SetAllIsOverride(store.Now(), mapping);
      Engine.PairsDeadlines(View().(contents := SetAll(store.Now(), mapping)), mapping, Engine.When(ttl, now));
      Engine.PairsRows(View().(contents := SetAll(store.Now(), mapping)), mapping, Engine.When(ttl, now));
      var ok := store.MsetAlone(mapping);
      WriteThrough(mapping, Engine.When(ttl, now));
    }

    /** The loop of `mset`: index and table, pair by pair. */
    method WriteThrough(mapping: Dict, expireAt: Option<Time>)
      requires scheduler.Valid()
      modifies scheduler, backend
      ensures scheduler.Valid() && View() == Engine.WithPairs(old(View()), mapping, expireAt)
    {
      for i := 0 to |mapping|
        invariant scheduler.Valid()
        invariant View() == Engine.WithPairs(old(View()), mapping[..i], expireAt)
      {
        assert mapping[..i + 1][..i] == mapping[..i];
        var key, value := mapping[i].0, mapping[i].1;
        Plan(key, expireAt);
        backend.PersistSet(key, value, expireAt);
      }
      assert mapping[..|mapping|] == mapping;
    }

    method Delete(key: Key) returns (existed: bool)
      requires Valid()
      modifies store, scheduler, backend
      ensures Valid() && View() == Engine.DoDelete(old(View()), key)
      ensures existed == old(key in store.Now())
      ensures existed ==> store.WroteSerially(CasStore.Delete(key), Events.DeleteEvent, true)
      ensures !existed ==> store.delivered == old(store.delivered)
      ensures existed ==>
        store.delivered == old(store.delivered)
          + Events.ToEach(Registry.Audience(store.Registered(), key),
                          Events.Event(key, Events.DeleteEvent, old(Get(store.Now(), key)), Null))
      ensures store.Now() == old(store.Now()) - {key} && backend.table == old(backend.table) - {key}
      ensures Deadlines(scheduler.View()) == old(Deadlines(scheduler.View())) - {key}
    {
      CancelRemoves(scheduler.View(), key);
      scheduler.Cancel(key);
      var ok, was := store.DeleteAlone(key, Events.DeleteEvent);
      backend.PersistDelete(key);
      existed := was;
    }

    method Atomic(key: Key, f: Value -> Value, default: Value) returns (value: Value)
      requires Valid()
      modifies store, scheduler, backend
      ensures Valid() && View() == Engine.DoAtomic(old(View()), key, f, default)
      ensures value == f(GetOr(old(store.Now()), key, default))
      ensures store.WroteSerially(CasStore.Atomic(key, f, default), Events.DeleteEvent, true)
      ensures store.Now() == old(store.Now())[key := value] && scheduler.View() == old(scheduler.View())
      ensures backend.table == old(backend.table)[key := Engine.Row(value, None)]
    {
      var ok, result := store.AtomicAlone(key, f, default);
      backend.PersistSet(key, result, None);
      value := result;
    }

    /** `mget`: the keys' values in order. */
    method Mget(keys: seq<Key>, default: Value) returns (values: seq<Value>)
      ensures |values| == |keys|
      ensures forall i :: 0 <= i < |keys| ==> values[i] == GetOr(store.Now(), keys[i], default)
    {
      values := [];
      for i := 0 to |keys|
        invariant |values| == i
        invariant forall j :: 0 <= j < i ==> values[j] == GetOr(store.Now(), keys[j], default)
      {
        var value := store.GetValue(keys[i], default);
        values := values + [value];
      }
    }

    /** The scheduler thread, from a pass to its next wait. */
    method RunScheduler(now: Time) returns (fired: seq<Entry>)
      requires Valid() && Engine.Valid(View()) && !scheduler.stopped
      modifies store, scheduler
      ensures Valid() && Engine.Valid(View()) && View() == Engine.RunToWait(old(View()), now)
      ensures IsDrain(old(View()).sched, now, View().sched, fired)
      ensures store.Now()
           == map k | k in old(store.Now()) && !PastDue(old(Deadlines(scheduler.View())), k, now) :: old(store.Now())[k]
      ensures Deadlines(scheduler.View())
           == map k | k in old(Deadlines(scheduler.View())) && old(Deadlines(scheduler.View()))[k] > now
                :: old(Deadlines(scheduler.View()))[k]
      // each key that was due is announced once, by deadline and then in the order of the keys
      ensures forall k ::
        (exists i :: 0 <= i < |fired| && fired[i].key == k) <==> PastDue(old(Deadlines(scheduler.View())), k, now)
      ensures forall i, j :: 0 <= i < j < |fired| ==> fired[i].key != fired[j].key && FiresBefore(fired[i], fired[j])
      ensures exists events ::
        && IsExpiryNews(events, fired, old(store.Now()))
        && store.delivered == old(store.delivered) + Events.Told(store.Registered(), events)
    {
      ghost var before := View();
      var turn, entries := scheduler.RunToWait(now);
      fired := entries;
      SchedulerLeaves(before, now, View(), fired);
      SchedulerAnnounces(before, now, scheduler.View(), fired);
    }
  }

  predicate StillLive(row: Engine.Row, now: Time) {
    row.expireAt.Some? ==> row.expireAt.value > now
  }

  /** Store and index hold what the table has, key by key. */
  ghost predicate Mirrors(db: Engine.Db)
    requires Ok(db.sched)
  {
    && (forall k :: k in db.contents <==> k in db.table)
    && (forall k :: k in db.table ==>
          k in db.contents && db.contents[k] == db.table[k].value && Engine.DeadlineAt(db.sched, k) == db.table[k].expireAt)
    && (forall k :: k !in db.table ==> Engine.DeadlineAt(db.sched, k) == None)
  }

  /** The constructor's loop leaves every live row, and nothing else, in store and index. */
  lemma ReopenedMirrors(table: Engine.Table, now: Time, rows: seq<(Key, Engine.Row)>)
    requires Engine.Lists(rows, Engine.Purged(table, now))
    ensures Ok(Engine.Reopened(table, now, rows).sched) && Mirrors(Engine.Reopened(table, now, rows))
    ensures Engine.Purged(table, now) == map k | k in table && StillLive(table[k], now) :: table[k]
  {
    var t := Engine.Reopened(table, now, rows);
    Rehydration.ReopenedIsValid(table, now, rows);
    forall k
      ensures (k in t.contents <==> k in t.table)
      ensures k in t.table ==>
        k in t.contents && t.contents[k] == t.table[k].value && Engine.DeadlineAt(t.sched, k) == t.table[k].expireAt
      ensures k !in t.table ==> Engine.DeadlineAt(t.sched, k) == None
    {
      Rehydration.ReopenedAt(table, now, rows, k);
    }
  }

  predicate PastDue(deadlines: map<Key, Time>, key: Key, now: Time) {
    key in deadlines && deadlines[key] <= now
  }

  /** One expire event for each entry fired, in order: from the value the key had to None. */
  ghost predicate IsExpiryNews(events: seq<Events.Event>, fired: seq<Entry>, m: Contents) {
    && |events| == |fired|
    && forall i :: 0 <= i < |fired| ==>
         && events[i].key == fired[i].key && events[i].kind == Events.ExpireEvent
         && fired[i].key in m && events[i].before == m[fired[i].key] && events[i].after == Null
  }

  lemma FiredArePastDue(s: Sched, now: Time, t: Sched, fired: seq<Entry>)
    requires Ok(s) && IsDrain(s, now, t, fired)
    ensures forall k :: (exists i :: 0 <= i < |fired| && fired[i].key == k) <==> PastDue(Deadlines(s), k, now)
  {
    forall k ensures (exists i :: 0 <= i < |fired| && fired[i].key == k) <==> PastDue(Deadlines(s), k, now) {
      FiredIffDue(s, now, t, fired, k);
      if e :| e in fired && e.key == k {
        var i :| 0 <= i < |fired| && fired[i] == e;
      }
      if i :| 0 <= i < |fired| && fired[i].key == k { assert fired[i] in fired; }
    }
  }

  /** The next of these deletes finds its key still there, with its value. */
  lemma NextNews(m: Contents, fired: seq<Entry>, e: Entry)
    requires forall i :: 0 <= i < |fired| ==> fired[i].key != e.key
    requires e.key in m
    ensures Events.Stream(m, Scheduler.Deletes(fired + [e]))
         == Events.Stream(m, Scheduler.Deletes(fired)) + [Events.Event(e.key, Events.ExpireEvent, m[e.key], Null)]
  {
    Scheduler.DeletesStream(m, fired, e);
    DeletesAt(m, fired, e.key);
    assert e.key !in KeysOf(fired);
    assert Lookup(Events.Outcome(m, Scheduler.Deletes(fired)), e.key) == Some(m[e.key]);
  }

  lemma NewsSnoc(events: seq<Events.Event>, fired: seq<Entry>, m: Contents, e: Entry)
    requires IsExpiryNews(events, fired, m) && e.key in m
    ensures IsExpiryNews(events + [Events.Event(e.key, Events.ExpireEvent, m[e.key], Null)], fired + [e], m)
  {}

  /** Deleting keys that are there, none of them twice, announces each with the value it had. */
  lemma {:induction false} ExpiryNews(m: Contents, fired: seq<Entry>)
    requires forall i, j :: 0 <= i < j < |fired| ==> fired[i].key != fired[j].key
    requires forall i :: 0 <= i < |fired| ==> fired[i].key in m
    ensures IsExpiryNews(Events.Stream(m, Scheduler.Deletes(fired)), fired, m)
  {
    if fired != [] {
      var n := |fired| - 1;
      var front, e := fired[..n], fired[n];
      ExpiryNews(m, front);
      NextNews(m, front, e);
      NewsSnoc(Events.Stream(m, Scheduler.Deletes(front)), front, m, e);
      assert fired == front + [e];
    }
  }

  /** What the loop leaves of store and index. */
  lemma SchedulerLeaves(before: Engine.Db, now: Time, after: Engine.Db, fired: seq<Entry>)
    requires Engine.Valid(before) && IsDrain(before.sched, now, after.sched, fired)
    requires after.contents == Events.Outcome(before.contents, Scheduler.Deletes(fired)) && after.table == before.table
    ensures Engine.Valid(after) && after == Engine.RunToWait(before, now)
    ensures after.contents == map k | k in before.contents && !PastDue(Deadlines(before.sched), k, now) :: before.contents[k]
    ensures Deadlines(after.sched)
         == map k | k in Deadlines(before.sched) && Deadlines(before.sched)[k] > now :: Deadlines(before.sched)[k]
  {
    Engine.DrainedTimed(before, now);
    Engine.LoopDrains(before, now);
    FiredLeavesDrained(before, now, after.sched, fired);
    DrainKeepsTheRest(before.sched, now, after.sched, fired);
  }

  /** Which keys fire, in what order, and what is announced of them. */
  lemma SchedulerAnnounces(db: Engine.Db, now: Time, t: Sched, fired: seq<Entry>)
    requires Engine.Valid(db) && IsDrain(db.sched, now, t, fired)
    ensures forall k :: (exists i :: 0 <= i < |fired| && fired[i].key == k) <==> PastDue(Deadlines(db.sched), k, now)
    ensures forall i, j :: 0 <= i < j < |fired| ==> fired[i].key != fired[j].key && FiresBefore(fired[i], fired[j])
    ensures IsExpiryNews(Events.Stream(db.contents, Scheduler.Deletes(fired)), fired, db.contents)
  {
    DrainKeepsTheRest(db.sched, now, t, fired);
    FiredInOrder(db.sched, now, t, fired);
    FiredArePastDue(db.sched, now, t, fired);
    forall i | 0 <= i < |fired| ensures fired[i].key in db.contents {
      assert PastDue(Deadlines(db.sched), fired[i].key, now);
    }
    ExpiryNews(db.contents, fired);
  }

  function KeysOf(fired: seq<Entry>): set<Key> {
    set e | e in fired :: e.key
  }

  lemma DeleteAt(m: Contents, gone: Key, key: Key)
    ensures Lookup(CasStore.Effect(CasStore.Delete(gone), m), key) == if key == gone then None else Lookup(m, key)
  {}

  lemma KeysSnoc(fired: seq<Entry>, e: Entry)
    ensures KeysOf(fired + [e]) == KeysOf(fired) + {e.key}
  {
    assert forall x :: x in fired + [e] <==> x in fired || x == e;
  }

  /** A key survives these deletes exactly if none of them is for it. */
  lemma {:induction false} DeletesAt(m: Contents, fired: seq<Entry>, key: Key)
    ensures Lookup(Events.Outcome(m, Scheduler.Deletes(fired)), key)
         == if key in KeysOf(fired) then None else Lookup(m, key)
  {
    if fired != [] {
      var n := |fired| - 1;
      DeletesAt(m, fired[..n], key);
      assert fired == fired[..n] + [fired[n]];
      KeysSnoc(fired[..n], fired[n]);
      Scheduler.DeletesOutcome(m, fired[..n], fired[n]);
      DeleteAt(Events.Outcome(m, Scheduler.Deletes(fired[..n])), fired[n].key, key);
    }
  }

  /** The entries the loop fires leave the store exactly as the drained engine has it. */
  lemma FiredLeavesDrained(db: Engine.Db, now: Time, t: Sched, fired: seq<Entry>)
    requires Engine.Valid(db) && IsDrain(db.sched, now, t, fired)
    ensures Engine.Db(Events.Outcome(db.contents, Scheduler.Deletes(fired)), t, db.table) == Engine.Drained(db, now)
  {
    var m := Events.Outcome(db.contents, Scheduler.Deletes(fired));
    forall k ensures Lookup(m, k) == Lookup(Engine.Drained(db, now).contents, k) {
      DeletesAt(db.contents, fired, k);
      FiredIffDue(db.sched, now, t, fired, k);
    }
    LookupsEqual(m, Engine.Drained(db, now).contents);
  }

  lemma LookupsEqual(a: Contents, b: Contents)
    requires forall k :: Lookup(a, k) == Lookup(b, k)
    ensures a == b
  {
    forall k ensures (k in a <==> k in b) && (k in a ==> a[k] == b[k]) {
      assert Lookup(a, k) == Lookup(b, k);
    }
  }
}
