/** The expiry thread as an object: a heap, a generation per key, and the loop. */
module Scheduler {
  import opened Values
  import opened CasStore
  import opened Events
  import opened Expiry
  import opened Heapq
  import Registry
  import opened Reactive
  import SchedulerProtocol

  /** What one pass through the lock decides. */
  datatype Turn =
    | Leave
    | WaitForever
    | WaitFor(seconds: Time)
    | Skip
    | Expire(entry: Entry)

  /** What the thread does next, as the protocol has it. */
  function NextPc(turn: Turn, now: Time): SchedulerProtocol.Pc {
    match turn
    case Leave => SchedulerProtocol.Exited
    case WaitForever => SchedulerProtocol.Asleep(None)
    case WaitFor(seconds) => SchedulerProtocol.Asleep(Some(now + seconds))
    case Skip => SchedulerProtocol.Running
    case Expire(e) => SchedulerProtocol.Firing(e.key, e.gen)
  }

  /** The protocol's pass on this index at this time. */
  ghost function PassOn(s: Sched, now: Time): SchedulerProtocol.Run {
    SchedulerProtocol.DoPass(SchedulerProtocol.Run(s, SchedulerProtocol.Running, now, []))
  }

  /** The wait when nothing is due: until the first entry, or untimed. */
  ghost function WaitFrom(s: Sched, now: Time): Turn {
    if s.pending == {} then WaitForever else WaitFor(First(s).when - now)
  }

  /** What a pass at `now` makes of the index, and what it goes on to do. */
  ghost predicate Decided(s: Sched, now: Time, turn: Turn, t: Sched) {
    if s.stop then turn == Leave && t == s
    else if NothingDue(s, now) then turn == WaitFrom(s, now) && t == s
    else t == Popped(s, First(s)) && turn == if IsCurrent(s, First(s)) then Expire(First(s)) else Skip
  }

  /** The section on the object is the protocol's pass on the same index and clock. */
  lemma SectionIsPass(s: Sched, now: Time, turn: Turn, t: Sched)
    requires Decided(s, now, turn, t)
    ensures t == PassOn(s, now).s && NextPc(turn, now) == PassOn(s, now).pc
  {}

  /** The deletes that fired entries turn into. */
  function Deletes(fired: seq<Entry>): seq<Write> {
    if fired == [] then []
    else Deletes(fired[..|fired| - 1]) + [Write(CasStore.Delete(fired[|fired| - 1].key), ExpireEvent)]
  }

  /** From `m0`, these deletes and no others led to `m1`, and these deliveries followed. */
  ghost predicate Followed(r: Registry.Reg, m0: Contents, told0: seq<Delivery>, m1: Contents, told1: seq<Delivery>, fired: seq<Entry>) {
    && m1 == Outcome(m0, Deletes(fired))
    && told1 == told0 + Told(r, Stream(m0, Deletes(fired)))
  }

  lemma DeletesOutcome(m: Contents, fired: seq<Entry>, e: Entry)
    ensures Outcome(m, Deletes(fired + [e])) == Effect(CasStore.Delete(e.key), Outcome(m, Deletes(fired)))
  {
    assert (fired + [e])[..|fired|] == fired;
    RunSnoc(m, Deletes(fired), Write(CasStore.Delete(e.key), ExpireEvent));
  }

  lemma DeletesStream(m: Contents, fired: seq<Entry>, e: Entry)
    ensures Stream(m, Deletes(fired + [e]))
         == Stream(m, Deletes(fired)) + Announced(CasStore.Delete(e.key), ExpireEvent, Outcome(m, Deletes(fired)))
  {
    assert (fired + [e])[..|fired|] == fired;
    RunSnoc(m, Deletes(fired), Write(CasStore.Delete(e.key), ExpireEvent));
  }

  lemma ToldExpiry(r: Registry.Reg, events: seq<Event>, m: Contents, key: Key)
    ensures var more := Announced(CasStore.Delete(key), ExpireEvent, m);
      Told(r, events + more) == Told(r, events) + Told(r, more)
  {
    ToldOneMore(r, events, Announced(CasStore.Delete(key), ExpireEvent, m));
  }

  lemma Associate(a: seq<Delivery>, b: seq<Delivery>, c: seq<Delivery>)
    ensures (a + b) + c == a + (b + c)
  {}

  /** One delete more: the store loses one key more, and its event follows the others. */
  lemma FollowedByOneMore(
    r: Registry.Reg, m0: Contents, told0: seq<Delivery>, m1: Contents, told1: seq<Delivery>, fired: seq<Entry>, e: Entry)
    requires Followed(r, m0, told0, m1, told1, fired)
    ensures Followed(r, m0, told0, Effect(CasStore.Delete(e.key), m1),
                     told1 + Told(r, Announced(CasStore.Delete(e.key), ExpireEvent, m1)), fired + [e])
  {
    DeletesOutcome(m0, fired, e);
    DeletesStream(m0, fired, e);
    var events := Stream(m0, Deletes(fired));
    ToldExpiry(r, events, m1, e.key);
    Associate(told0, Told(r, events), Told(r, Announced(CasStore.Delete(e.key), ExpireEvent, m1)));
  }

  /** Taking one of a list's distinct entries out leaves the others, each once. */
  lemma OneLess(before: seq<Entry>, rest: seq<Entry>, e: Entry)
    requires multiset(before) == multiset(rest) + multiset{e} && forall x :: multiset(before)[x] <= 1
    ensures |rest| < |before| && forall x :: multiset(rest)[x] <= 1
    ensures (set x | x in rest) == (set x | x in before) - {e}
  {
    assert |multiset(before)| == |multiset(rest)| + 1;
    forall x ensures multiset(rest)[x] <= 1 && (x in rest <==> x in before && x != e) {
      assert multiset(before)[x] == multiset(rest)[x] + if x == e then 1 else 0;
      assert x in rest <==> x in multiset(rest);
      assert x in before <==> x in multiset(before);
    }
  }

  class ExpiryScheduler {
    const store: ReactiveStore
    var heap: seq<Entry>
    var generation: map<Key, nat>
    var stopped: bool

    constructor (store: ReactiveStore)
      ensures this.store == store && Valid() && View() == IDLE
    {
      this.store := store;
      heap := [];
      generation := map[];
      stopped := false;
    }

    ghost function View(): Sched
      reads this
    {
      Sched((set e | e in heap), generation, stopped)
    }

    /** The list is a heap of distinct entries in good order. */
    ghost predicate Valid()
      reads this
    {
      IsHeap(heap) && (forall e :: multiset(heap)[e] <= 1) && Expiry.Ok(View())
    }

    method Schedule(key: Key, when: Time)
      requires Valid()
      modifies this`heap, this`generation
      ensures Valid() && View() == Scheduled(old(View()), key, when)
    {
      ScheduleOk(View(), key, when);
      var gen := (if key in generation then generation[key] else 0) + 1;
      generation := generation[key := gen];
      var item := Entry(when, key, gen);
      assert forall e :: e in old(View()).pending && e.key == key ==> e.gen < gen;
      ghost var before := heap;
      heap := HeapPush(heap, item);
      assert forall e :: e in heap <==> e in multiset(heap);
      assert forall e :: e in before <==> e in multiset(before);
      assert View().pending == old(View()).pending + {item};
    }

    method Cancel(key: Key)
      requires Valid()
      modifies this`generation
      ensures Valid() && View() == Cancelled(old(View()), key)
    {
      CancelRemoves(View(), key);
      generation := generation[key := (if key in generation then generation[key] else 0) + 1];
    }

    method Stop()
      requires Valid()
      modifies this`stopped
      ensures Valid() && View() == old(View()).(stop := true)
    {
      stopped := true;
    }

    /** One pass of the loop through the lock. */
    method Section(now: Time) returns (turn: Turn)
      requires Valid()
      modifies this`heap
      ensures Valid() && Decided(old(View()), now, turn, View())
      ensures if turn.Skip? || turn.Expire? then |heap| < |old(heap)| else heap == old(heap)
    {
      if stopped { return Leave; }
      if heap == [] {
        assert View().pending == {};
        return WaitForever;
      }
      assert heap[0] in View().pending;
      TopIsFirst();
      var wait := heap[0].when - now;
      if wait > 0.0 { return WaitFor(wait); }
      var item, rest := PopTop();
      turn := if item.key in generation && generation[item.key] == item.gen then Expire(item) else Skip;
    }

    lemma TopIsFirst()
      requires Valid() && heap != []
      ensures heap[0] in View().pending && First(View()) == heap[0]
    {
      forall e | e in View().pending ensures Leq(heap[0], e) {
        var i :| 0 <= i < |heap| && heap[i] == e;
        TopIsLeast(heap, i);
      }
      FirstIsUnique(View(), heap[0]);
    }

    method PopTop() returns (item: Entry, ghost rest: seq<Entry>)
      requires Valid() && heap != []
      modifies this`heap
      ensures Valid() && item == old(heap)[0] && View() == Popped(old(View()), item) && |heap| < |old(heap)|
    {
      ghost var before := heap;
      assert heap[0] in View().pending;
      PopRemovesOrNothing(View(), heap[0]);
      var e, r := HeapPop(heap);
      OneLess(before, r, e);
      heap := r;
      item, rest := e, r;
    }

    /** The store has seen exactly these deletes since it held `m`, and its subscribers have been told. */
    ghost predicate HasDeleted(m: Contents, told: seq<Delivery>, fired: seq<Entry>)
      reads store
    {
      store.maxRetries > 0 ==> Followed(store.Registered(), m, told, store.Now(), store.delivered, fired)
    }

    /** The delete outside the lock. */
    method Fire(e: Entry, ghost m: Contents, ghost told: seq<Delivery>, ghost fired: seq<Entry>)
      requires HasDeleted(m, told, fired)
      modifies store`ref, store`delivered, store`logged
      ensures HasDeleted(m, told, fired + [e])
    {
      if store.maxRetries > 0 {
        FollowedByOneMore(store.Registered(), m, told, store.Now(), store.delivered, fired, e);
      }
      store.ExpireKey(e.key);
    }

    /** Once round the loop. */
    method Turnover(now: Time, ghost m: Contents, ghost told: seq<Delivery>, fired: seq<Entry>)
      returns (turn: Turn, fired': seq<Entry>)
      requires Valid() && HasDeleted(m, told, fired)
      modifies this`heap, store`ref, store`delivered, store`logged
      ensures Valid() && HasDeleted(m, told, fired')
      ensures if turn.Skip? || turn.Expire? then |heap| < |old(heap)| else heap == old(heap)
      ensures stopped ==> turn == Leave && fired' == fired && unchanged(store)
      ensures !stopped && NothingDue(old(View()), now) ==>
        View() == old(View()) && turn == WaitFrom(View(), now)
      ensures !stopped ==> NothingDue(old(View()), now) || turn.Skip? || turn.Expire?
      ensures !stopped ==>
        && DrainLeft(View(), now) == DrainLeft(old(View()), now)
        && fired' + DrainFired(View(), now) == fired + DrainFired(old(View()), now)
    {
      if !stopped && !NothingDue(View(), now) { DrainStep(View(), now, fired); }
      turn := Section(now);
      fired' := fired;
      if turn.Expire? {
        Fire(turn.entry, m, told, fired);
        fired' := fired + [turn.entry];
      }
    }

    /**
     `run` from a pass to its next wait, the clock standing at `now` and nobody
     else calling: the due entries are popped in order, each current one is
     deleted from the store with an expire event, and the wait lasts until the
     next entry.
     */
    method RunToWait(now: Time) returns (turn: Turn, fired: seq<Entry>)
      requires Valid()
      modifies this`heap, store`ref, store`delivered, store`logged
      ensures Valid()
      ensures stopped ==> turn == Leave && fired == [] && heap == old(heap) && unchanged(store)
      ensures !stopped ==>
        && IsDrain(old(View()), now, View(), fired)
        && turn == WaitFrom(View(), now)
      ensures !stopped ==> forall i, j :: 0 <= i < j < |fired| ==> FiresBefore(fired[i], fired[j])
      ensures HasDeleted(old(store.Now()), old(store.delivered), fired)
    {
      fired := [];
      ghost var s := View();
      ghost var m, told := store.Now(), store.delivered;
      assert Deletes(fired) == [];
      turn := Skip;
      while turn.Skip? || turn.Expire?
        invariant Valid() && HasDeleted(m, told, fired)
        invariant stopped ==> heap == old(heap) && fired == [] && unchanged(store) && (turn == Skip || turn == Leave)
        invariant !stopped ==>
          DrainLeft(View(), now) == DrainLeft(s, now) && fired + DrainFired(View(), now) == DrainFired(s, now)
        invariant !stopped && !turn.Skip? && !turn.Expire? ==>
          NothingDue(View(), now) && turn == WaitFrom(View(), now)
        decreases |heap|, if turn.Skip? || turn.Expire? then 1 else 0
      {
        turn, fired := Turnover(now, m, told, fired);
      }
      if !stopped {
        assert fired + [] == fired;
        LoopIsDrain(s, now);
        FiredInOrder(s, now, View(), fired);
      }
    }
  }
}
