/**
 The expiry index: a pile of `(when, key, generation)` entries, most of them
 possibly stale, and a generation per key. An entry counts only while its
 generation is its key's current one.
 */
module Expiry {
  import opened Values

  type Time = real

  datatype Entry = Entry(when: Time, key: Key, gen: nat)

  // ---- tuples compare lexicographically ------------------------------------

  /** Python's order on strings. */
  predicate KeyLess(a: Key, b: Key) {
    b != [] && (a == [] || a[0] < b[0] || (a[0] == b[0] && KeyLess(a[1..], b[1..])))
  }

  predicate Less(x: Entry, y: Entry) {
    || x.when < y.when
    || (x.when == y.when && (KeyLess(x.key, y.key) || (x.key == y.key && x.gen < y.gen)))
  }

  predicate Leq(x: Entry, y: Entry) {
    !Less(y, x)
  }

  lemma {:induction false} KeysCompare(a: Key, b: Key)
    ensures a == b || KeyLess(a, b) || KeyLess(b, a)
    ensures !(KeyLess(a, b) && KeyLess(b, a)) && !KeyLess(a, a)
  {
    if a != [] && b != [] {
      KeysCompare(a[1..], b[1..]);
      assert a == [a[0]] + a[1..] && b == [b[0]] + b[1..];
    }
    if a != [] { KeysCompare(a[1..], a[1..]); }
  }

  lemma {:induction false} KeysTransitive(a: Key, b: Key, c: Key)
    requires KeyLess(a, b) && KeyLess(b, c)
    ensures KeyLess(a, c)
  {
    if a != [] && a[0] == b[0] == c[0] {
      KeysTransitive(a[1..], b[1..], c[1..]);
    }
  }

  /** Two entries that are neither before nor after each other are the same entry. */
  lemma LeqTotal(x: Entry, y: Entry)
    ensures Leq(x, y) || Leq(y, x)
    ensures Leq(x, y) && Leq(y, x) ==> x == y
  {
    KeysCompare(x.key, y.key);
  }

  lemma LeqTransitive(x: Entry, y: Entry, z: Entry)
    requires Leq(x, y) && Leq(y, z)
    ensures Leq(x, z)
  {
    KeysCompare(x.key, y.key);
    KeysCompare(y.key, z.key);
    KeysCompare(x.key, z.key);
    if KeyLess(x.key, y.key) && KeyLess(y.key, z.key) { KeysTransitive(x.key, y.key, z.key); }
  }

  /** Two strings agree on their first n characters, and there the first one ends or has the smaller character. */
  predicate PartAt(a: Key, b: Key, n: nat) {
    n <= |a| && n < |b| && a[..n] == b[..n] && (n == |a| || a[n] < b[n])
  }

  lemma PartsLater(a: Key, b: Key, n: nat)
    requires a != [] && b != [] && a[0] == b[0]
    ensures PartAt(a[1..], b[1..], n) <==> PartAt(a, b, n + 1)
  {
    if n <= |a| - 1 && n < |b| - 1 {
      assert a[..n + 1] == [a[0]] + a[1..][..n] && b[..n + 1] == [b[0]] + b[1..][..n];
    }
  }

  /** The order on strings is the order of the first difference. */
  lemma {:induction false} KeysPart(a: Key, b: Key)
    ensures KeyLess(a, b) <==> exists n: nat :: PartAt(a, b, n)
  {
    if a != [] && b != [] && a[0] == b[0] {
      KeysPart(a[1..], b[1..]);
      if n: nat :| PartAt(a[1..], b[1..], n) { PartsLater(a, b, n); }
      if n: nat :| PartAt(a, b, n) {
        assert n != 0;
        PartsLater(a, b, n - 1);
      }
    } else {
      if KeyLess(a, b) { assert PartAt(a, b, 0); }
      if n: nat :| PartAt(a, b, n) && n != 0 { assert a[..n][0] == b[..n][0]; }
    }
  }

  /** Tuples compare by time, then by the first difference of the keys, then by generation. */
  lemma TuplesCompare(x: Entry, y: Entry)
    ensures Less(x, y) <==>
      || x.when < y.when
      || (x.when == y.when && ((exists n: nat :: PartAt(x.key, y.key, n)) || (x.key == y.key && x.gen < y.gen)))
  {
    KeysPart(x.key, y.key);
  }

  // ---- the index -------------------------------------------------------------

  datatype Sched = Sched(pending: set<Entry>, gen: map<Key, nat>, stop: bool)

  const IDLE := Sched({}, map[], false)

  function NextGen(s: Sched, key: Key): nat {
    (if key in s.gen then s.gen[key] else 0) + 1
  }

  function Scheduled(s: Sched, key: Key, when: Time): Sched {
    var g := NextGen(s, key);
    Sched(s.pending + {Entry(when, key, g)}, s.gen[key := g], s.stop)
  }

  function Cancelled(s: Sched, key: Key): Sched {
    s.(gen := s.gen[key := NextGen(s, key)])
  }

  function Popped(s: Sched, e: Entry): Sched {
    s.(pending := s.pending - {e})
  }

  predicate IsCurrent(s: Sched, e: Entry) {
    e.key in s.gen && s.gen[e.key] == e.gen
  }

  /** Every entry has its own (key, generation), none beyond the key's current one. */
  ghost predicate Ok(s: Sched) {
    && (forall e :: e in s.pending ==> e.key in s.gen && 1 <= e.gen <= s.gen[e.key])
    && (forall e, f :: e in s.pending && f in s.pending && e.key == f.key && e.gen == f.gen ==> e == f)
  }

  /** The plain map the index stands for. */
  ghost function Deadlines(s: Sched): map<Key, Time>
    requires Ok(s)
  {
    map e | e in s.pending && IsCurrent(s, e) :: e.key := e.when
  }

  /** The index holds a current entry for `key` at `when`. */
  ghost predicate Due(s: Sched, key: Key, when: Time) {
    key in s.gen && Entry(when, key, s.gen[key]) in s.pending
  }

  lemma DueOnce(s: Sched, key: Key, d: Time, e: Time)
    requires Ok(s) && Due(s, key, d) && Due(s, key, e)
    ensures d == e
  {
    assert Entry(d, key, s.gen[key]) == Entry(e, key, s.gen[key]);
  }

  ghost predicate MapsTo(m: map<Key, Time>, key: Key, when: Time) {
    key in m && m[key] == when
  }

  lemma DeadlineIsDue(s: Sched, key: Key, when: Time)
    requires Ok(s)
    ensures MapsTo(Deadlines(s), key, when) <==> Due(s, key, when)
  {
    if Due(s, key, when) {
      assert IsCurrent(s, Entry(when, key, s.gen[key]));
    }
    if key in Deadlines(s) {
      var e :| e in s.pending && IsCurrent(s, e) && e.key == key;
      assert e == Entry(e.when, key, s.gen[key]);
      assert Due(s, key, Deadlines(s)[key]);
    }
  }

  /** A map that agrees with the index key by key is the map the index stands for. */
  lemma DeadlinesAre(s: Sched, m: map<Key, Time>)
    requires Ok(s) && forall k, d :: MapsTo(m, k, d) <==> Due(s, k, d)
    ensures Deadlines(s) == m
  {
    forall k ensures k in Deadlines(s) <==> k in m {
      if k in m {
        assert MapsTo(m, k, m[k]);
        DeadlineIsDue(s, k, m[k]);
      }
      if k in Deadlines(s) { DeadlineIsDue(s, k, Deadlines(s)[k]); }
    }
    forall k | k in m ensures Deadlines(s)[k] == m[k] {
      assert MapsTo(m, k, m[k]);
      DeadlineIsDue(s, k, m[k]);
    }
  }

  lemma ScheduleOk(s: Sched, key: Key, when: Time)
    requires Ok(s)
    ensures Ok(Scheduled(s, key, when))
  {}

  /** `schedule` keeps the index in order and is an update of the map. */
  lemma {:induction false} ScheduleUpdates(s: Sched, key: Key, when: Time)
    requires Ok(s)
    ensures Ok(Scheduled(s, key, when))
    ensures Deadlines(Scheduled(s, key, when)) == Deadlines(s)[key := when]
  {
    var t := Scheduled(s, key, when);
    var m := Deadlines(s)[key := when];
    ScheduleOk(s, key, when);
    forall k, d ensures MapsTo(m, k, d) <==> Due(t, k, d) {
      DeadlineIsDue(s, k, d);
    }
    DeadlinesAre(t, m);
  }

  /** `cancel` keeps the index in order and is a removal from the map. */
  lemma {:induction false} CancelRemoves(s: Sched, key: Key)
    requires Ok(s)
    ensures Ok(Cancelled(s, key))
    ensures Deadlines(Cancelled(s, key)) == Deadlines(s) - {key}
  {
    var t := Cancelled(s, key);
    var m := Deadlines(s) - {key};
    forall k, d ensures MapsTo(m, k, d) <==> Due(t, k, d) {
      DeadlineIsDue(s, k, d);
    }
    DeadlinesAre(t, m);
  }

  /** Popping a current entry removes its key from the map, popping a stale one changes nothing. */
  lemma {:induction false} PopRemovesOrNothing(s: Sched, e: Entry)
    requires Ok(s) && e in s.pending
    ensures Ok(Popped(s, e))
    ensures IsCurrent(s, e) ==> MapsTo(Deadlines(s), e.key, e.when)
    ensures Deadlines(Popped(s, e)) == if IsCurrent(s, e) then Deadlines(s) - {e.key} else Deadlines(s)
  {
    var t := Popped(s, e);
    var m := if IsCurrent(s, e) then Deadlines(s) - {e.key} else Deadlines(s);
    DeadlineIsDue(s, e.key, e.when);
    forall k, d ensures MapsTo(m, k, d) <==> Due(t, k, d) {
      DeadlineIsDue(s, k, d);
      if k == e.key && IsCurrent(s, e) && Due(s, k, d) { DueOnce(s, k, d, e.when); }
    }
    DeadlinesAre(t, m);
  }

  // ---- one pass of the loop, and a drain -------------------------------------

  ghost predicate IsFirst(s: Sched, e: Entry) {
    e in s.pending && forall f :: f in s.pending ==> Leq(e, f)
  }

  lemma {:induction false} FirstExists(all: set<Entry>) returns (e: Entry)
    requires all != {}
    ensures e in all && forall f :: f in all ==> Leq(e, f)
    decreases |all|
  {
    var x :| x in all;
    if all == {x} {
      LeqTotal(x, x);
      e := x;
    } else {
      assert all == (all - {x}) + {x};
      e := FirstExists(all - {x});
      LeqTotal(x, e);
      LeqTotal(x, x);
      if Leq(x, e) {
        forall f | f in all ensures Leq(x, f) {
          if f != x { LeqTransitive(x, e, f); }
        }
        e := x;
      }
    }
  }

  /** The entry at the top of the heap. */
  ghost function First(s: Sched): (e: Entry)
    requires s.pending != {}
    ensures IsFirst(s, e)
  {
    assert exists e :: IsFirst(s, e) by {
      var e := FirstExists(s.pending);
      assert IsFirst(s, e);
    }
    var e :| IsFirst(s, e);
    e
  }

  lemma FirstIsUnique(s: Sched, e: Entry)
    requires IsFirst(s, e)
    ensures First(s) == e
  {
    LeqTotal(e, First(s));
  }

  /** What the `run` loop does by the time it waits, if the clock stands at `now` and nobody else calls. */
  ghost predicate IsDrain(s: Sched, now: Time, t: Sched, fired: seq<Entry>) {
    && t == s.(pending := set e | e in s.pending && e.when > now)
    && (forall e :: e in fired <==> e in s.pending && e.when <= now && IsCurrent(s, e))
    && (forall i, j :: 0 <= i < j < |fired| ==> Less(fired[i], fired[j]))
  }

  /** The first fires before the second: an earlier deadline, or the same one and an earlier key. */
  ghost predicate FiresBefore(x: Entry, y: Entry) {
    x.when < y.when || (x.when == y.when && exists n: nat :: PartAt(x.key, y.key, n))
  }

  ghost predicate NothingDue(s: Sched, now: Time) {
    s.pending == {} || First(s).when > now
  }

  /** The entries the loop fires, one pop after the other. */
  ghost function DrainFired(s: Sched, now: Time): seq<Entry>
    decreases |s.pending|
  {
    if NothingDue(s, now) then []
    else
      var e := First(s);
      (if IsCurrent(s, e) then [e] else []) + DrainFired(Popped(s, e), now)
  }

  /** The index the loop leaves behind. */
  ghost function DrainLeft(s: Sched, now: Time): Sched
    decreases |s.pending|
  {
    if NothingDue(s, now) then s else DrainLeft(Popped(s, First(s)), now)
  }

  /** Popping the first due entry leaves the rest of the drain as it was. */
  lemma DrainStep(s: Sched, now: Time, fired: seq<Entry>)
    requires !NothingDue(s, now)
    ensures var e := First(s);
      && DrainLeft(Popped(s, e), now) == DrainLeft(s, now)
      && (fired + if IsCurrent(s, e) then [e] else []) + DrainFired(Popped(s, e), now) == fired + DrainFired(s, now)
  {
    var e := First(s);
    var head := if IsCurrent(s, e) then [e] else [];
    assert DrainFired(s, now) == head + DrainFired(Popped(s, e), now);
  }

  lemma FirstIsLess(s: Sched, e: Entry)
    requires s.pending != {} && e in s.pending && e != First(s)
    ensures Less(First(s), e)
  {
    LeqTotal(First(s), e);
  }

  /** Popping one entry at a time ends with exactly the due entries gone, fired in order. */
  lemma {:induction false} LoopIsDrain(s: Sched, now: Time)
    ensures IsDrain(s, now, DrainLeft(s, now), DrainFired(s, now))
    ensures Ok(s) ==>
      forall i, j :: 0 <= i < j < |DrainFired(s, now)| ==> FiresBefore(DrainFired(s, now)[i], DrainFired(s, now)[j])
  {
    LoopDrainsInOrder(s, now);
    if Ok(s) { FiredInOrder(s, now, DrainLeft(s, now), DrainFired(s, now)); }
  }

  lemma {:induction false} LoopDrainsInOrder(s: Sched, now: Time)
    ensures IsDrain(s, now, DrainLeft(s, now), DrainFired(s, now))
    decreases |s.pending|
  {
    if !NothingDue(s, now) {
      var e := First(s);
      var rest := DrainFired(Popped(s, e), now);
      LoopDrainsInOrder(Popped(s, e), now);
      forall f | f in rest ensures Less(e, f) {
        FirstIsLess(s, f);
      }
      assert (set f | f in s.pending && f.when > now) == (set f | f in Popped(s, e).pending && f.when > now);
    } else {
      forall f | f in s.pending ensures f.when > now {
        assert Leq(First(s), f);
      }
      assert s.pending == set f | f in s.pending && f.when > now;
    }
  }

  /** Each key fires once, in order of deadline, and every later deadline stands. */
  lemma DrainKeepsTheRest(s: Sched, now: Time, t: Sched, fired: seq<Entry>)
    requires Ok(s) && IsDrain(s, now, t, fired)
    ensures Ok(t)
    ensures Deadlines(t) == map k | k in Deadlines(s) && Deadlines(s)[k] > now :: Deadlines(s)[k]
    ensures forall i, j :: 0 <= i < j < |fired| ==> fired[i].key != fired[j].key && fired[i].when <= fired[j].when
  {
    var m := map k | k in Deadlines(s) && Deadlines(s)[k] > now :: Deadlines(s)[k];
    forall k, d ensures MapsTo(m, k, d) <==> Due(t, k, d) {
      DeadlineIsDue(s, k, d);
    }
    DeadlinesAre(t, m);
    forall i, j | 0 <= i < j < |fired| ensures fired[i].key != fired[j].key && fired[i].when <= fired[j].when {
      DistinctFired(s, now, t, fired, i, j);
    }
  }

  lemma DistinctFired(s: Sched, now: Time, t: Sched, fired: seq<Entry>, i: nat, j: nat)
    requires Ok(s) && IsDrain(s, now, t, fired) && i < j < |fired|
    ensures fired[i].key != fired[j].key && fired[i].when <= fired[j].when
  {
    assert fired[i] in fired && fired[j] in fired && Less(fired[i], fired[j]);
    KeysCompare(fired[i].key, fired[i].key);
  }

  /** Keys of one deadline fire in the order of their first difference. */
  lemma FiredInOrder(s: Sched, now: Time, t: Sched, fired: seq<Entry>)
    requires Ok(s) && IsDrain(s, now, t, fired)
    ensures forall i, j :: 0 <= i < j < |fired| ==> FiresBefore(fired[i], fired[j])
  {
    forall i, j | 0 <= i < j < |fired| ensures FiresBefore(fired[i], fired[j]) {
      DistinctFired(s, now, t, fired, i, j);
      TuplesCompare(fired[i], fired[j]);
    }
  }

  /** A key is fired exactly when its deadline has come, and at that deadline's entry. */
  lemma FiredIffDue(s: Sched, now: Time, t: Sched, fired: seq<Entry>, key: Key)
    requires Ok(s) && IsDrain(s, now, t, fired)
    ensures (exists e :: e in fired && e.key == key) <==> key in Deadlines(s) && Deadlines(s)[key] <= now
    ensures forall e :: e in fired && e.key == key ==> key in Deadlines(s) && Deadlines(s)[key] == e.when
  {
    forall e | e in fired && e.key == key ensures key in Deadlines(s) && Deadlines(s)[key] == e.when {
      DeadlineIsDue(s, key, e.when);
    }
    if key in Deadlines(s) && Deadlines(s)[key] <= now {
      DeadlineIsDue(s, key, Deadlines(s)[key]);
      assert Entry(Deadlines(s)[key], key, s.gen[key]) in fired;
    }
  }
}
