/**
 `wait_for` against writers that notify: the check / subscribe / re-check /
 park protocol, interleaved step by step with any number of writing calls on
 the compare-and-swap store, with their notifications (capture the audience
 under `_subs_lock`, then one callback at a time) and with other subscribers
 coming and going.
 */
module WaitFor {
  import opened Values
  import opened CasStore
  import opened Registry
  import opened Linearizability

  type WaiterId = nat

  /** `source` is the log position the value was the key's value at. */
  datatype Outcome = Got(value: Value, source: nat) | TimedOut

  datatype WPc =
    | Checking
    | Subscribing
    | Rechecking
    | Parked(pos: nat)          // re-check failed at log position `pos`; in `event.wait`
    | Woken
    | Leaving(outcome: Outcome) // in the `finally`
    | Gone(outcome: Outcome)

  /**
   `started` is the length of the log when the call began, `heard` the log
   position that `result` was the key's value at.
   */
  datatype Waiter = Waiter(
    key: Key, pred: Value -> bool, pc: WPc, sub: nat, event: bool, result: Value, started: nat, heard: nat)

  /** How far a writer's notifications have come: pairs still to announce, and who is still to hear the current one. */
  datatype Note = Note(todo: seq<(Key, Value)>, key: Key, value: Value, before: Option<Value>, queue: seq<Sub>)

  datatype World = World(store: State, reg: Reg, notes: map<CallId, Note>, waiters: map<WaiterId, Waiter>)

  const START := World(INIT, Empty(), map[], map[])

  /** The keys and new values a call announces once `mutate` has returned; a bare `mutate` announces nothing. */
  function News(op: Op, box: Box): seq<(Key, Value)> {
    match op
    case Mutate(_) => []
    case Set(k, v) => [(k, v)]
    case Mset(d) => d
    case Atomic(k, _, _) => if box.Box? then [(k, box.becomes)] else []
    case Delete(k) => [(k, Null)]
  }

  function NoteOf(s: World, id: CallId): Note
    requires id in s.store.calls
  {
    if id in s.notes then s.notes[id]
    else Note(News(s.store.calls[id].op, s.store.calls[id].box), "", Null, None, [])
  }

  datatype WStep =
    | OnStore(step: Step)
    | Capture(id: CallId)
    | Deliver(id: CallId)
    | StartWait(w: WaiterId, key: Key, pred: Value -> bool)
    | Advance(w: WaiterId)      // the waiter's own next step
    | Timeout(w: WaiterId)
    | OtherSubscribe(slot: Slot, name: nat)
    | OtherCancel(slot: Slot, id: nat)

  /** The old value `atomic` announces comes out of its `box`; those of other calls are not followed here. */
  function OldValue(box: Box): Option<Value> {
    if box.Unset? then None else Some(if box.was.Some? then box.was.value else Null)
  }

  function DoCapture(s: World, id: CallId): World {
    if id !in s.store.calls || !s.store.calls[id].pc.Returned? then s
    else
      var n := NoteOf(s, id);
      if n.queue != [] || n.todo == [] then s
      else s.(notes := s.notes[id :=
        Note(n.todo[1..], n.todo[0].0, n.todo[0].1, OldValue(s.store.calls[id].box), Audience(s.reg, n.todo[0].0))])
  }

  /** `_check(k, ev, old, new)` of one waiter. */
  function Hear(waiter: Waiter, news: Value, point: nat): Waiter {
    if waiter.pred(news) then waiter.(event := true, result := news, heard := point) else waiter
  }

  /** The log position a call's result is the state of. */
  function Point(pc: Pc): nat {
    if pc.Returned? then pc.at + (if pc.swapped then 1 else 0) else 0
  }

  function DoDeliver(s: World, id: CallId): World {
    if id !in s.notes || s.notes[id].queue == [] || id !in s.store.calls then s
    else
      var n := s.notes[id];
      var s1 := s.(notes := s.notes[id := n.(queue := n.queue[1..])]);
      match n.queue[0].callback
      case Plain(_) => s1
      case Check(w) =>
        if w in s.waiters then s1.(waiters := s.waiters[w := Hear(s.waiters[w], n.value, Point(s.store.calls[id].pc))]) else s1
  }

  /** A waiter's own next step: what it does to itself. */
  function NextWaiter(s: World, me: Waiter): Waiter {
    var current := Get(Current(s.store), me.key);
    match me.pc
    case Checking => me.(pc := if me.pred(current) then Gone(Got(current, |s.store.log|)) else Subscribing)
    case Subscribing => me.(pc := Rechecking, sub := s.reg.next)
    case Rechecking =>
      me.(pc := if me.pred(current) then Leaving(Got(current, |s.store.log|)) else Parked(|s.store.log|))
    case Parked(_) => if me.event then me.(pc := Woken) else me
    case Woken => me.(pc := Leaving(Got(me.result, me.heard)))
    case Leaving(outcome) => me.(pc := Gone(outcome))
    case Gone(_) => me
  }

  /** And to the registry. */
  function NextReg(r: Reg, w: WaiterId, me: Waiter): Reg {
    match me.pc
    case Subscribing => Add(r, Some(me.key), Check(w))
    case Leaving(_) => Remove(r, Some(me.key), me.sub)
    case _ => r
  }

  function DoAdvance(s: World, w: WaiterId, me: Waiter): World {
    s.(reg := NextReg(s.reg, w, me), waiters := s.waiters[w := NextWaiter(s, me)])
  }

  /** A subscription can only be cancelled by whoever holds its handle. */
  ghost predicate HeldByOthers(r: Reg, slot: Slot, id: nat) {
    forall x :: x in Listed(r, slot) && x.id == id ==> x.callback.Plain?
  }

  ghost function WDo(max: int, s: World, step: WStep): World {
    match step
    case OnStore(st) => s.(store := Do(max, s.store, st))
    case Capture(id) => DoCapture(s, id)
    case Deliver(id) => DoDeliver(s, id)
    case StartWait(w, key, pred) =>
      if w in s.waiters then s
      else s.(waiters := s.waiters[w := Waiter(key, pred, Checking, 0, false, Null, |s.store.log|, 0)])
    case Advance(w) => if w in s.waiters then DoAdvance(s, w, s.waiters[w]) else s
    case Timeout(w) =>
      if w in s.waiters && s.waiters[w].pc.Parked? && !s.waiters[w].event
      then s.(waiters := s.waiters[w := s.waiters[w].(pc := Leaving(TimedOut))]) else s
    case OtherSubscribe(slot, name) => s.(reg := Add(s.reg, slot, Plain(name)))
    case OtherCancel(slot, id) => if HeldByOthers(s.reg, slot, id) then s.(reg := Remove(s.reg, slot, id)) else s
  }

  ghost function WExec(max: int, schedule: seq<WStep>): World {
    if schedule == [] then START
    else WDo(max, WExec(max, schedule[..|schedule| - 1]), schedule[|schedule| - 1])
  }

  // ---- the invariant ------------------------------------------------

  ghost predicate Announces(d: seq<(Key, Value)>, key: Key) {
    exists i :: 0 <= i < |d| && d[i].0 == key
  }

  /** Writer `id` has yet to call waiter `me`'s callback. */
  ghost predicate Outstanding(s: World, id: CallId, w: WaiterId, me: Waiter)
    requires id in s.store.calls
  {
    var n := NoteOf(s, id);
    Announces(n.todo, me.key) || (n.key == me.key && Sub(me.sub, Check(w)) in n.queue)
  }

  /** The commit at position `p` cannot be missed by waiter `me`. */
  ghost predicate Covered(s: World, w: WaiterId, me: Waiter, p: nat)
    requires HistOk(s.store) && LogOk(s.store) && p < |s.store.log|
  {
    var c := s.store.calls[s.store.log[p].id];
    Announces(News(c.op, c.box), me.key) ==>
      || me.event
      || Outstanding(s, s.store.log[p].id, w, me)
      || !me.pred(Get(s.store.heap[s.store.hist[p + 1]], me.key))
  }

  ghost predicate NoteOk(s: World, id: CallId)
    requires id in s.notes
  {
    && id in s.store.calls && s.store.calls[id].pc.Returned?
    && var news := News(s.store.calls[id].op, s.store.calls[id].box);
    && (forall x :: x in s.notes[id].todo ==> x in news)
    && (s.notes[id].queue != [] ==> (s.notes[id].key, s.notes[id].value) in news)
  }

  predicate Subscribed(pc: WPc) {
    pc.Rechecking? || pc.Parked? || pc.Woken? || pc.Leaving?
  }

  /** What a waiter has in hand always satisfies its predicate. */
  ghost predicate ResultOk(me: Waiter) {
    && (me.event ==> me.pred(me.result))
    && (me.pc.Woken? ==> me.event)
    && (me.pc.Leaving? && me.pc.outcome.Got? ==> me.pred(me.pc.outcome.value))
    && (me.pc.Gone? && me.pc.outcome.Got? ==> me.pred(me.pc.outcome.value))
  }

  ghost predicate WaiterOk(s: World, w: WaiterId)
    requires HistOk(s.store) && LogOk(s.store) && w in s.waiters
  {
    var me := s.waiters[w];
    && ResultOk(me)
    && (Subscribed(me.pc) ==> Sub(me.sub, Check(w)) in Listed(s.reg, Some(me.key)))
    && (me.pc.Parked? ==>
          && me.pc.pos <= |s.store.log|
          && !me.pred(Get(s.store.heap[s.store.hist[me.pc.pos]], me.key))
          && forall p :: me.pc.pos <= p < |s.store.log| ==> Covered(s, w, me, p))
  }

  ghost predicate WInv(max: int, s: World) {
    && Inv(max, s.store)
    && Registry.Ok(s.reg)
    && (forall id :: id in s.notes ==> NoteOk(s, id))
    && (forall w :: w in s.waiters ==> WaiterOk(s, w))
  }

  /** A call announces exactly what its own swap wrote. */
  lemma NewsIsTrue(max: int, s: State, p: nat, x: (Key, Value))
    requires Inv(max, s) && p < |s.log|
    requires x in News(s.calls[s.log[p].id].op, s.calls[s.log[p].id].box)
    ensures x.1 == Get(s.heap[s.hist[p + 1]], x.0)
  {
    var c := s.calls[s.log[p].id];
    assert CallOk(max, s, s.log[p].id);
    if c.op.Mset? {
      var i :| 0 <= i < |c.op.mapping| && c.op.mapping[i] == x;
      SetAllIsOverride(s.heap[s.hist[p]], c.op.mapping);
      AsMapAt(c.op.mapping, i);
    }
  }

  /** What a call does not announce it does not change, unless it is a bare `mutate`. */
  lemma SilentMeansUnchanged(max: int, s: State, p: nat, key: Key)
    requires Inv(max, s) && p < |s.log| && !s.log[p].op.Mutate?
    requires !Announces(News(s.calls[s.log[p].id].op, s.calls[s.log[p].id].box), key)
    ensures Get(s.heap[s.hist[p + 1]], key) == Get(s.heap[s.hist[p]], key)
  {
    var c := s.calls[s.log[p].id];
    assert CallOk(max, s, s.log[p].id);
    var news := News(c.op, c.box);
    if c.op.Mset? {
      SetAllIsOverride(s.heap[s.hist[p]], c.op.mapping);
      AsMapKeys(c.op.mapping, key);
    } else {
      assert news[0].0 != key;
    }
  }
}
