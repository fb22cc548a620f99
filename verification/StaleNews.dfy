/**
 Where the value that `wait_for` returns comes from: it was the key's value at
 some log position, but that position may lie before the call began, if a
 writer announces late what it wrote before.
 */
module StaleNews {
  import opened Values
  import opened CasStore
  import opened Registry
  import opened Linearizability
  import opened WaitFor
  import opened NoLostWakeup
  import opened SilentWrites

  /** The key's value at log position q. */
  ghost predicate ValueAt(s: State, key: Key, q: nat, value: Value)
    requires HistOk(s)
  {
    q <= |s.log| && value == Get(s.heap[s.hist[q]], key)
  }

  /** What a waiter has in hand was the key's value where it says. */
  ghost predicate Sourced(s: State, me: Waiter)
    requires HistOk(s)
  {
    && (me.event ==> ValueAt(s, me.key, me.heard, me.result))
    && (me.pc.Leaving? && me.pc.outcome.Got? ==> ValueAt(s, me.key, me.pc.outcome.source, me.pc.outcome.value))
    && (me.pc.Gone? && me.pc.outcome.Got? ==> ValueAt(s, me.key, me.pc.outcome.source, me.pc.outcome.value))
  }

  /** A call announces the values its result holds, also when it swapped nothing. */
  lemma NewsIsAtPoint(max: int, s: State, id: CallId, x: (Key, Value))
    requires Inv(max, s) && id in s.calls && s.calls[id].pc.Returned?
    requires x in News(s.calls[id].op, s.calls[id].box)
    ensures ValueAt(s, x.0, Point(s.calls[id].pc), x.1)
  {
    var c := s.calls[id];
    assert CallOk(max, s, id);
    if c.op.Mset? {
      var i :| 0 <= i < |c.op.mapping| && c.op.mapping[i] == x;
      SetAllIsOverride(s.heap[s.hist[c.pc.at]], c.op.mapping);
      AsMapAt(c.op.mapping, i);
    }
  }

  // ---- every value has a source --------------------------------------------------

  /** A waiter whose callback a writer is about to call waits for the key being announced. */
  ghost predicate Queued(s: World) {
    forall id, x :: id in s.notes && x in s.notes[id].queue && x.callback.Check? ==>
      x.callback.waiter in s.waiters && s.waiters[x.callback.waiter].key == s.notes[id].key
  }

  ghost predicate AllSourced(s: World)
    requires HistOk(s.store)
  {
    forall w :: w in s.waiters ==> Sourced(s.store, s.waiters[w])
  }

  lemma AudienceWaitsForKey(s: World, key: Key, x: Sub)
    requires Tidy(s) && x in Audience(s.reg, key) && x.callback.Check?
    ensures x.callback.waiter in s.waiters && s.waiters[x.callback.waiter].key == key
  {
    assert x in Listed(s.reg, Some(key)) || x in Listed(s.reg, None);
    assert forall slot :: x in Listed(s.reg, slot) ==> Owned(s, slot, x);
  }

  lemma CaptureKeepsQueued(s: World, id: CallId)
    requires Queued(s) && Tidy(s)
    ensures Queued(DoCapture(s, id))
  {
    var s' := DoCapture(s, id);
    forall i, x | i in s'.notes && x in s'.notes[i].queue && x.callback.Check?
      ensures x.callback.waiter in s'.waiters && s'.waiters[x.callback.waiter].key == s'.notes[i].key
    {
      if i == id && s' != s { AudienceWaitsForKey(s, s'.notes[id].key, x); }
    }
  }

  lemma DeliverKeepsQueued(s: World, id: CallId)
    requires Queued(s)
    ensures Queued(DoDeliver(s, id))
  {}

  /** Waiters stay, and go on waiting for the same thing. */
  ghost predicate SameWaits(s: World, s': World) {
    forall w :: w in s.waiters ==>
      && w in s'.waiters && s'.waiters[w].key == s.waiters[w].key && s'.waiters[w].pred == s.waiters[w].pred
      && s'.waiters[w].started == s.waiters[w].started
  }

  lemma AdvanceFrame(s: World, w: WaiterId)
    requires w in s.waiters
    ensures var s' := DoAdvance(s, w, s.waiters[w]);
      && SameWaits(s, s') && s'.notes == s.notes && s'.store == s.store
      && forall v :: v in s.waiters && v != w ==> s'.waiters[v] == s.waiters[v]
  {}

  lemma DeliverFrame(s: World, id: CallId)
    ensures SameWaits(s, DoDeliver(s, id)) && DoDeliver(s, id).store == s.store
  {}

  /** What the steps of waiters, writers and others leave as it was. */
  lemma WDoFrame(max: int, s: World, step: WStep)
    ensures SameWaits(s, WDo(max, s, step))
    ensures !step.Capture? && !step.Deliver? ==> WDo(max, s, step).notes == s.notes
    ensures !step.OnStore? ==> WDo(max, s, step).store == s.store
    ensures !step.Deliver? ==>
      forall v :: v in s.waiters && step != Advance(v) && step != Timeout(v) ==> WDo(max, s, step).waiters[v] == s.waiters[v]
  {
    match step
    case Advance(w) => if w in s.waiters { AdvanceFrame(s, w); }
    case Deliver(id) => DeliverFrame(s, id);
    case _ =>
  }

  lemma WDoKeepsQueued(max: int, s: World, step: WStep)
    requires Queued(s) && Tidy(s)
    ensures Queued(WDo(max, s, step))
  {
    WDoFrame(max, s, step);
    if step.Capture? {
      CaptureKeepsQueued(s, step.id);
    } else if step.Deliver? {
      DeliverKeepsQueued(s, step.id);
    } else {
      StillQueued(s, WDo(max, s, step));
    }
  }

  lemma StillQueued(s: World, s': World)
    requires Queued(s) && SameWaits(s, s') && s'.notes == s.notes
    ensures Queued(s')
  {}

  lemma {:induction false} AlwaysQueued(max: int, schedule: seq<WStep>)
    ensures Queued(WExec(max, schedule))
  {
    if schedule != [] {
      AlwaysQueued(max, schedule[..|schedule| - 1]);
      AlwaysTidy(max, schedule[..|schedule| - 1]);
      WDoKeepsQueued(max, WExec(max, schedule[..|schedule| - 1]), schedule[|schedule| - 1]);
    }
  }

  lemma DeliverKeepsSourced(max: int, s: World, id: CallId, w: WaiterId)
    requires WInv(max, s) && Queued(s) && w in s.waiters && Sourced(s.store, s.waiters[w])
    ensures w in DoDeliver(s, id).waiters && Sourced(s.store, DoDeliver(s, id).waiters[w])
  {
    if id in s.notes && s.notes[id].queue != [] && id in s.store.calls {
      var n := s.notes[id];
      assert NoteOk(s, id);
      NewsIsAtPoint(max, s.store, id, (n.key, n.value));
      assert n.queue[0] in n.queue;
    }
  }

  lemma StoreKeepsSourced(s: State, t: State, me: Waiter)
    requires HistOk(s) && HistOk(t) && Grows(s, t) && Sourced(s, me)
    ensures Sourced(t, me)
  {
    assert forall q :: 0 <= q <= |s.log| ==> t.heap[t.hist[q]] == s.heap[s.hist[q]];
  }

  lemma AdvanceKeepsSourced(s: World, w: WaiterId)
    requires HistOk(s.store) && w in s.waiters && ResultOk(s.waiters[w]) && Sourced(s.store, s.waiters[w])
    ensures w in DoAdvance(s, w, s.waiters[w]).waiters && Sourced(s.store, DoAdvance(s, w, s.waiters[w]).waiters[w])
  {}

  lemma TimeoutKeepsSourced(max: int, s: World, w: WaiterId)
    requires HistOk(s.store) && w in s.waiters && Sourced(s.store, s.waiters[w])
    ensures var s' := WDo(max, s, Timeout(w)); w in s'.waiters && Sourced(s.store, s'.waiters[w])
  {}

  lemma WaiterKeepsSourced(max: int, s: World, step: WStep, w: WaiterId)
    requires WInv(max, s) && Queued(s) && w in s.waiters && Sourced(s.store, s.waiters[w]) && HistOk(WDo(max, s, step).store)
    ensures w in WDo(max, s, step).waiters && Sourced(WDo(max, s, step).store, WDo(max, s, step).waiters[w])
  {
    WDoFrame(max, s, step);
    if step.OnStore? {
      DoLater(max, s.store, step.step);
      StoreKeepsSourced(s.store, WDo(max, s, step).store, s.waiters[w]);
    } else if step.Deliver? {
      DeliverKeepsSourced(max, s, step.id, w);
    } else if step == Timeout(w) {
      TimeoutKeepsSourced(max, s, w);
    } else if step == Advance(w) {
      assert WaiterOk(s, w);
      AdvanceKeepsSourced(s, w);
    }
  }

  lemma NewWaiterIsSourced(max: int, s: World, step: WStep, w: WaiterId)
    requires HistOk(s.store) && w !in s.waiters && w in WDo(max, s, step).waiters
    ensures WDo(max, s, step).store == s.store && Sourced(s.store, WDo(max, s, step).waiters[w])
  {}

  lemma WDoKeepsSourced(max: int, s: World, step: WStep)
    requires WInv(max, s) && Queued(s) && AllSourced(s) && HistOk(WDo(max, s, step).store)
    ensures AllSourced(WDo(max, s, step))
  {
    forall w | w in WDo(max, s, step).waiters ensures Sourced(WDo(max, s, step).store, WDo(max, s, step).waiters[w]) {
      if w in s.waiters { WaiterKeepsSourced(max, s, step, w); } else { NewWaiterIsSourced(max, s, step, w); }
    }
  }

  lemma {:induction false} AlwaysSourced(max: int, schedule: seq<WStep>)
    ensures HistOk(WExec(max, schedule).store) && AllSourced(WExec(max, schedule))
  {
    if schedule != [] {
      AlwaysSourced(max, schedule[..|schedule| - 1]);
      AlwaysQueued(max, schedule[..|schedule| - 1]);
      WExecKeepsInv(max, schedule[..|schedule| - 1]);
      WExecKeepsInv(max, schedule);
      WDoKeepsSourced(max, WExec(max, schedule[..|schedule| - 1]), schedule[|schedule| - 1]);
    }
  }

  /** Whatever `wait_for` returns was the key's value at some log position. */
  lemma {:induction false} ReturnedWasTheKeysValue(max: int, schedule: seq<WStep>, w: WaiterId, me: Waiter)
    requires w in WExec(max, schedule).waiters && me == WExec(max, schedule).waiters[w]
    requires me.pc.Gone? && me.pc.outcome.Got?
    ensures HistOk(WExec(max, schedule).store)
    ensures ValueAt(WExec(max, schedule).store, me.key, me.pc.outcome.source, me.pc.outcome.value)
  {
    AlwaysSourced(max, schedule);
  }

  // ---- which values are older than the call --------------------------------------

  /**
   Call `id` announces, or may yet announce, a value of `key` from before the
   log's end: it returned earlier and is not done announcing, or it has read an
   older snapshot that its transaction may leave as it is.
   */
  ghost predicate OldNews(s: World, id: CallId, key: Key, value: Value) {
    && id in s.store.calls
    && var c := s.store.calls[id];
    match c.pc
    case Returned(_, _, _) => Point(c.pc) < |s.store.log| && (key, value) in NoteOf(s, id).todo
    case Computing(_, base, seen) =>
      && seen < |s.store.log|
      && Effect(c.op, Deref(s.store, base)) == Deref(s.store, base)
      && (key, value) in News(c.op, Stored(c.op, Deref(s.store, base)))
    case _ => false
  }

  ghost predicate SomeOldNews(s: World, key: Key, value: Value) {
    exists id :: OldNews(s, id, key, value)
  }

  /** What call `id` still has to announce to waiter `w` from before `s` was already old news then. */
  ghost predicate NewsIsOld(s: World, t: World, w: WaiterId, id: CallId)
    requires id in t.store.calls
  {
    var n := NoteOf(t, id);
    && (forall x :: x in n.todo ==> OldNews(s, id, x.0, x.1))
    && (forall y :: y in n.queue && y.callback == Check(w) ==> OldNews(s, id, n.key, n.value))
  }

  ghost predicate CallsTrail(s: World, t: World, w: WaiterId) {
    forall id :: id in t.store.calls ==> CallTrail(s, t, w, id)
  }

  ghost predicate CallTrail(s: World, t: World, w: WaiterId, id: CallId)
    requires id in t.store.calls
  {
    var c := t.store.calls[id];
    && (c.pc.Returned? && Point(c.pc) < |s.store.log| ==> NewsIsOld(s, t, w, id))
    && (c.pc.Computing? && c.pc.seen < |s.store.log| ==>
          id in s.store.calls && s.store.calls[id].pc == c.pc && s.store.calls[id].op == c.op)
  }

  /** What the waiter has in hand from before `s` was old news then. */
  ghost predicate HandTrail(s: World, me: Waiter) {
    && (me.event && me.heard < |s.store.log| ==> SomeOldNews(s, me.key, me.result))
    && (me.pc.Leaving? && me.pc.outcome.Got? && me.pc.outcome.source < |s.store.log| ==>
          SomeOldNews(s, me.key, me.pc.outcome.value))
    && (me.pc.Gone? && me.pc.outcome.Got? && me.pc.outcome.source < |s.store.log| ==>
          SomeOldNews(s, me.key, me.pc.outcome.value))
  }

  ghost predicate Trail(s: World, t: World, w: WaiterId) {
    Grows(s.store, t.store) && CallsTrail(s, t, w) && w in t.waiters && HandTrail(s, t.waiters[w])
  }

  // Steps of the store.

  lemma ComputeTrail(max: int, s: World, t: World, w: WaiterId, id: CallId, result: Option<Addr>)
    requires WInv(max, t) && Sound(s) && Grows(s.store, t.store) && id in t.store.calls && CallTrail(s, t, w, id)
    ensures var t' := t.(store := DoCompute(t.store, id, t.store.calls[id], result));
      id in t'.store.calls && CallTrail(s, t', w, id)
  {
    var c := t.store.calls[id];
    assert CallOk(max, t.store, id);
    assert id in t.notes ==> NoteOk(t, id);
    if c.pc.Computing? && c.pc.seen < |s.store.log| {
      assert t.store.hist[c.pc.seen] == s.store.hist[c.pc.seen];
      assert Deref(t.store, c.pc.base) == Deref(s.store, c.pc.base);
    }
  }

  lemma MovedCallTrail(max: int, s: World, t: World, w: WaiterId, step: Step)
    requires WInv(max, t) && Sound(s) && Grows(s.store, t.store) && step.id in t.store.calls && CallTrail(s, t, w, step.id)
    ensures var t' := t.(store := Do(max, t.store, step)); step.id in t'.store.calls && CallTrail(s, t', w, step.id)
  {
    if step.Compute? { ComputeTrail(max, s, t, w, step.id, step.result); }
  }

  /** A step of the store moves one call. */
  lemma OthersStay(max: int, s: State, step: Step, id: CallId)
    requires id in s.calls && id != step.id
    ensures id in Do(max, s, step).calls && Do(max, s, step).calls[id] == s.calls[id]
  {}

  lemma NewCall(max: int, s: State, step: Step, id: CallId)
    requires id !in s.calls && id in Do(max, s, step).calls
    ensures Do(max, s, step).calls[id].pc.Probe? || Do(max, s, step).calls[id].pc.Loop?
  {}

  lemma StoreTrail(max: int, s: World, t: World, w: WaiterId, step: Step)
    requires WInv(max, t) && Sound(s) && Grows(s.store, t.store) && CallsTrail(s, t, w)
    ensures CallsTrail(s, t.(store := Do(max, t.store, step)), w)
  {
    var t' := t.(store := Do(max, t.store, step));
    forall id | id in t'.store.calls ensures CallTrail(s, t', w, id) {
      if id !in t.store.calls {
        NewCall(max, t.store, step, id);
      } else if id == step.id {
        MovedCallTrail(max, s, t, w, step);
      } else {
        OthersStay(max, t.store, step, id);
        assert CallTrail(s, t, w, id);
      }
    }
  }

  // Steps of the writers' notifications.

  lemma CaptureTrail(s: World, t: World, w: WaiterId, id: CallId)
    requires CallsTrail(s, t, w)
    ensures CallsTrail(s, DoCapture(t, id), w)
  {
    var t' := DoCapture(t, id);
    if t' != t {
      assert CallTrail(s, t, w, id);
      assert NoteOf(t, id).todo[0] in NoteOf(t, id).todo;
      forall i | i in t'.store.calls ensures CallTrail(s, t', w, i) {
        assert CallTrail(s, t, w, i);
      }
    }
  }

  lemma DeliverCallsTrail(s: World, t: World, w: WaiterId, id: CallId)
    requires CallsTrail(s, t, w)
    ensures CallsTrail(s, DoDeliver(t, id), w)
  {
    var t' := DoDeliver(t, id);
    forall i | i in t'.store.calls ensures CallTrail(s, t', w, i) {
      assert CallTrail(s, t, w, i);
    }
  }

  lemma DeliverHandTrail(max: int, s: World, t: World, w: WaiterId, id: CallId)
    requires WInv(max, t) && Queued(t) && CallsTrail(s, t, w) && w in t.waiters && HandTrail(s, t.waiters[w])
    ensures w in DoDeliver(t, id).waiters && HandTrail(s, DoDeliver(t, id).waiters[w])
  {
    if id in t.notes && t.notes[id].queue != [] && id in t.store.calls {
      var n := t.notes[id];
      assert n.queue[0] in n.queue && NoteOk(t, id) && CallTrail(s, t, w, id);
      if n.queue[0].callback == Check(w) && Point(t.store.calls[id].pc) < |s.store.log| {
        assert OldNews(s, id, n.key, n.value);
      }
    }
  }

  lemma AdvanceTrail(s: World, t: World, w: WaiterId)
    requires Grows(s.store, t.store) && w in t.waiters && ResultOk(t.waiters[w]) && HandTrail(s, t.waiters[w])
    ensures HandTrail(s, NextWaiter(t, t.waiters[w]))
  {}

  lemma SameNotesTrail(s: World, t: World, t': World, w: WaiterId)
    requires CallsTrail(s, t, w) && t'.store == t.store && t'.notes == t.notes
    ensures CallsTrail(s, t', w)
  {
    forall id | id in t'.store.calls ensures CallTrail(s, t', w, id) { assert CallTrail(s, t, w, id); }
  }

  lemma CallsKeepTrail(max: int, s: World, t: World, w: WaiterId, step: WStep)
    requires WInv(max, t) && Sound(s) && Trail(s, t, w)
    ensures CallsTrail(s, WDo(max, t, step), w)
  {
    if step.OnStore? {
      StoreTrail(max, s, t, w, step.step);
    } else if step.Capture? {
      CaptureTrail(s, t, w, step.id);
    } else if step.Deliver? {
      DeliverCallsTrail(s, t, w, step.id);
    } else {
      WDoFrame(max, t, step);
      SameNotesTrail(s, t, WDo(max, t, step), w);
    }
  }

  lemma HandKeepsTrail(max: int, s: World, t: World, w: WaiterId, step: WStep)
    requires WInv(max, t) && Queued(t) && Trail(s, t, w)
    ensures w in WDo(max, t, step).waiters && HandTrail(s, WDo(max, t, step).waiters[w])
  {
    WDoFrame(max, t, step);
    if step.Deliver? {
      DeliverHandTrail(max, s, t, w, step.id);
    } else if step == Advance(w) {
      assert WaiterOk(t, w);
      AdvanceTrail(s, t, w);
    }
  }

  lemma WDoKeepsTrail(max: int, s: World, t: World, w: WaiterId, step: WStep)
    requires WInv(max, t) && Queued(t) && Sound(s) && Trail(s, t, w)
    ensures Trail(s, WDo(max, t, step), w)
  {
    CallsKeepTrail(max, s, t, w, step);
    HandKeepsTrail(max, s, t, w, step);
    WDoFrame(max, t, step);
    if step.OnStore? { DoLater(max, t.store, step.step); }
  }

  lemma StartTrail(max: int, s: World, w: WaiterId, key: Key, pred: Value -> bool)
    requires Queued(s) && w !in s.waiters
    ensures Trail(s, WDo(max, s, StartWait(w, key, pred)), w)
  {
    var t := WDo(max, s, StartWait(w, key, pred));
    forall id | id in t.store.calls ensures CallTrail(s, t, w, id) {
      var n := NoteOf(t, id);
      assert forall y :: y in n.queue && y.callback == Check(w) ==> id in s.notes && y in s.notes[id].queue;
    }
  }

  /** The waiter's own part of the trail, with what it waits for. */
  ghost predicate Follows(s: World, t: World, w: WaiterId, key: Key, pred: Value -> bool) {
    Trail(s, t, w) && t.waiters[w].key == key && t.waiters[w].pred == pred
  }

  lemma TrailBegins(max: int, before: seq<WStep>, w: WaiterId, key: Key, pred: Value -> bool, s: World)
    requires s == WExec(max, before) && w !in s.waiters
    ensures Sound(s) && Follows(s, WExec(max, before + [StartWait(w, key, pred)]), w, key, pred)
  {
    WExecKeepsInv(max, before);
    WExecSnoc(max, before, StartWait(w, key, pred));
    AlwaysQueued(max, before);
    StartTrail(max, s, w, key, pred);
  }

  lemma {:induction false} TrailGoesOn(
    max: int, schedule: seq<WStep>, step: WStep, w: WaiterId, key: Key, pred: Value -> bool, s: World, t: World)
    requires t == WExec(max, schedule) && Sound(s) && Follows(s, t, w, key, pred)
    ensures Follows(s, WDo(max, t, step), w, key, pred)
  {
    WExecKeepsInv(max, schedule);
    AlwaysQueued(max, schedule);
    WDoKeepsTrail(max, s, t, w, step);
    WDoFrame(max, t, step);
  }

  lemma {:induction false} AlwaysTrail(
    max: int, before: seq<WStep>, w: WaiterId, key: Key, pred: Value -> bool, more: seq<WStep>, s: World)
    requires s == WExec(max, before) && w !in s.waiters
    ensures Sound(s) && Follows(s, WExec(max, before + [StartWait(w, key, pred)] + more), w, key, pred)
  {
    var start := before + [StartWait(w, key, pred)];
    if more == [] {
      assert start + more == start;
      TrailBegins(max, before, w, key, pred, s);
    } else {
      var n := |more| - 1;
      AlwaysTrail(max, before, w, key, pred, more[..n], s);
      assert start + more == (start + more[..n]) + [more[n]];
      WExecSnoc(max, start + more[..n], more[n]);
      TrailGoesOn(max, start + more[..n], more[n], w, key, pred, s, WExec(max, start + more[..n]));
    }
  }

  /** The call of `wait_for` that `w` begins after `before` returns a value the key does not have while it runs. */
  ghost predicate Stale(max: int, before: seq<WStep>, w: WaiterId, key: Key, pred: Value -> bool, more: seq<WStep>) {
    var s, t := WExec(max, before), WExec(max, before + [StartWait(w, key, pred)] + more);
    && w in t.waiters && t.waiters[w].pc.Gone? && t.waiters[w].pc.outcome.Got?
    && NeverDuring(s.store, t.store, key, t.waiters[w].pc.outcome.value)
  }

  ghost predicate NeverDuring(s: State, t: State, key: Key, value: Value) {
    HistOk(t) && forall q :: |s.log| <= q <= |t.log| ==> !ValueAt(t, key, q, value)
  }

  /** Without old news, what `wait_for` returns has been the key's value during the call. */
  lemma {:induction false} StaleNeedsOldNews(
    max: int, before: seq<WStep>, w: WaiterId, key: Key, pred: Value -> bool, more: seq<WStep>, s: World)
    requires s == WExec(max, before) && w !in s.waiters && Stale(max, before, w, key, pred, more)
    ensures exists id, value :: OldNews(s, id, key, value) && pred(value)
  {
    var all := before + [StartWait(w, key, pred)] + more;
    AlwaysTrail(max, before, w, key, pred, more, s);
    OnlySatisfyingValuesReturned(max, all, w);
    ReturnedWasTheKeysValue(max, all, w, WExec(max, all).waiters[w]);
    OldSourceIsOldNews(s, WExec(max, all).store, WExec(max, all).waiters[w]);
  }

  lemma OldSourceIsOldNews(s: World, t: State, me: Waiter)
    requires HistOk(t) && me.pc.Gone? && me.pc.outcome.Got? && HandTrail(s, me) && me.pred(me.pc.outcome.value)
    requires ValueAt(t, me.key, me.pc.outcome.source, me.pc.outcome.value)
    requires NeverDuring(s.store, t, me.key, me.pc.outcome.value)
    ensures exists id, value :: OldNews(s, id, me.key, value) && me.pred(value)
  {
    assert me.pc.outcome.source < |s.store.log|;
    var id :| OldNews(s, id, me.key, me.pc.outcome.value);
  }

  // ---- and old news can be returned ------------------------------------------------

  /** The waiter is parked and listed, and the news it waits for is under way, or has arrived. */
  ghost predicate WillHear(s: World, id: CallId, w: WaiterId, key: Key, pred: Value -> bool) {
    && id in s.store.calls && s.store.calls[id].pc.Returned?
    && w in s.waiters && s.waiters[w].pc.Parked? && s.waiters[w].key == key && s.waiters[w].pred == pred
    && Sub(s.waiters[w].sub, Check(w)) in Listed(s.reg, Some(key))
    && var n := NoteOf(s, id);
    || s.waiters[w].event
    || (exists x :: x in n.todo && x.0 == key && pred(x.1))
    || (n.key == key && pred(n.value) && Sub(s.waiters[w].sub, Check(w)) in n.queue)
  }

  lemma CaptureHears(s: World, id: CallId, w: WaiterId, key: Key, pred: Value -> bool)
    requires WillHear(s, id, w, key, pred) && !s.waiters[w].event && NoteOf(s, id).queue == []
    ensures var s' := DoCapture(s, id);
      && WillHear(s', id, w, key, pred) && s'.store == s.store
      && |NoteOf(s', id).todo| < |NoteOf(s, id).todo|
  {
    var n := NoteOf(s, id);
    var x :| x in n.todo && x.0 == key && pred(x.1);
    assert x == n.todo[0] || x in n.todo[1..];
  }

  lemma DeliverHears(s: World, id: CallId, w: WaiterId, key: Key, pred: Value -> bool)
    requires WillHear(s, id, w, key, pred) && !s.waiters[w].event && NoteOf(s, id).queue != []
    ensures var s' := DoDeliver(s, id);
      && WillHear(s', id, w, key, pred) && s'.store == s.store
      && NoteOf(s', id).todo == NoteOf(s, id).todo && |NoteOf(s', id).queue| < |NoteOf(s, id).queue|
  {
    var queue := NoteOf(s, id).queue;
    assert forall y :: y in queue ==> y == queue[0] || y in queue[1..];
  }

  /** The steps `more`, from `s` on. */
  ghost function RunFrom(max: int, s: World, more: seq<WStep>): World
    decreases |more|
  {
    if more == [] then s else RunFrom(max, WDo(max, s, more[0]), more[1..])
  }

  lemma SplitFirst(schedule: seq<WStep>, more: seq<WStep>)
    requires more != []
    ensures schedule + more == (schedule + [more[0]]) + more[1..]
  {}

  lemma {:induction false} RunFromIsExec(max: int, schedule: seq<WStep>, more: seq<WStep>, s: World, all: seq<WStep>)
    requires s == WExec(max, schedule) && all == schedule + more
    ensures RunFrom(max, s, more) == WExec(max, all)
    decreases |more|
  {
    if more == [] {
      assert all == schedule;
    } else {
      WExecSnoc(max, schedule, more[0]);
      SplitFirst(schedule, more);
      RunFromIsExec(max, schedule + [more[0]], more[1..], WDo(max, s, more[0]), all);
    }
  }

  lemma {:induction false} RunFromConcat(max: int, s: World, a: seq<WStep>, b: seq<WStep>)
    ensures RunFrom(max, s, a + b) == RunFrom(max, RunFrom(max, s, a), b)
    decreases |a|
  {
    if a == [] {
      assert a + b == b;
    } else {
      assert (a + b)[1..] == a[1..] + b;
      RunFromConcat(max, WDo(max, s, a[0]), a[1..], b);
    }
  }

  /** The writer's next step towards this waiter. */
  ghost function NextNote(s: World, id: CallId): WStep
    requires id in s.store.calls
  {
    if NoteOf(s, id).queue == [] then Capture(id) else Deliver(id)
  }

  lemma NextNoteHears(max: int, s: World, id: CallId, w: WaiterId, key: Key, pred: Value -> bool)
    requires WillHear(s, id, w, key, pred) && !s.waiters[w].event
    ensures var s' := WDo(max, s, NextNote(s, id));
      && WillHear(s', id, w, key, pred) && s'.store == s.store
      && (|NoteOf(s', id).todo| < |NoteOf(s, id).todo| ||
          (|NoteOf(s', id).todo| == |NoteOf(s, id).todo| && |NoteOf(s', id).queue| < |NoteOf(s, id).queue|))
  {
    if NoteOf(s, id).queue == [] { CaptureHears(s, id, w, key, pred); } else { DeliverHears(s, id, w, key, pred); }
  }

  /** The writer goes on announcing until the waiter has heard. */
  lemma {:induction false} Announcing(max: int, s: World, id: CallId, w: WaiterId, key: Key, pred: Value -> bool, todo: nat, queue: nat)
    returns (more: seq<WStep>)
    requires WillHear(s, id, w, key, pred) && todo == |NoteOf(s, id).todo| && queue == |NoteOf(s, id).queue|
    ensures var t := RunFrom(max, s, more); WillHear(t, id, w, key, pred) && t.waiters[w].event && t.store == s.store
    decreases todo, queue
  {
    if s.waiters[w].event {
      more := [];
    } else {
      var s' := WDo(max, s, NextNote(s, id));
      NextNoteHears(max, s, id, w, key, pred);
      var rest := Announcing(max, s', id, w, key, pred, |NoteOf(s', id).todo|, |NoteOf(s', id).queue|);
      more := [NextNote(s, id)] + rest;
      assert more[0] == NextNote(s, id) && more[1..] == rest;
    }
  }

  /** Three steps of the waiter. */
  function Thrice(w: WaiterId): seq<WStep> {
    [Advance(w), Advance(w), Advance(w)]
  }

  lemma ThreeSteps(max: int, s: World, w: WaiterId)
    ensures RunFrom(max, s, Thrice(w)) == WDo(max, WDo(max, WDo(max, s, Advance(w)), Advance(w)), Advance(w))
  {
    var s1 := WDo(max, s, Advance(w));
    var s2 := WDo(max, s1, Advance(w));
    assert Thrice(w)[1..] == [Advance(w), Advance(w)] && Thrice(w)[1..][1..] == [Advance(w)];
    assert RunFrom(max, s2, [Advance(w)]) == RunFrom(max, WDo(max, s2, Advance(w)), []);
    assert RunFrom(max, s1, [Advance(w), Advance(w)]) == RunFrom(max, s2, [Advance(w)]);
  }

  /** From its first check to sleep. */
  lemma Parks(max: int, s: World, w: WaiterId)
    requires w in s.waiters && s.waiters[w].pc.Checking? && !s.waiters[w].event
    requires !s.waiters[w].pred(Get(Current(s.store), s.waiters[w].key))
    ensures var t := WDo(max, WDo(max, WDo(max, s, Advance(w)), Advance(w)), Advance(w));
      && t.store == s.store && t.notes == s.notes && w in t.waiters
      && t.waiters[w] == s.waiters[w].(pc := Parked(|s.store.log|), sub := s.reg.next)
      && Sub(s.reg.next, Check(w)) in Listed(t.reg, Some(s.waiters[w].key))
  {
    var s1 := WDo(max, s, Advance(w));
    assert s1.waiters[w] == s.waiters[w].(pc := Subscribing) && s1.reg == s.reg;
    var s2 := WDo(max, s1, Advance(w));
    assert s2.waiters[w] == s.waiters[w].(pc := Rechecking, sub := s.reg.next);
    AddListed(s.reg, Some(s.waiters[w].key), Check(w), Some(s.waiters[w].key));
    assert s2.store == s.store && s2.reg == Add(s.reg, Some(s.waiters[w].key), Check(w));
  }

  /** From the wakeup to the return. */
  lemma Returns(max: int, s: World, w: WaiterId)
    requires w in s.waiters && s.waiters[w].pc.Parked? && s.waiters[w].event
    ensures var t := WDo(max, WDo(max, WDo(max, s, Advance(w)), Advance(w)), Advance(w));
      && t.store == s.store && w in t.waiters
      && t.waiters[w].pc == Gone(Got(s.waiters[w].result, s.waiters[w].heard))
  {
    var s1 := WDo(max, s, Advance(w));
    assert s1.waiters[w] == s.waiters[w].(pc := Woken) && s1.store == s.store;
    var s2 := WDo(max, s1, Advance(w));
    assert s2.waiters[w] == s.waiters[w].(pc := Leaving(Got(s.waiters[w].result, s.waiters[w].heard))) && s2.store == s.store;
  }

  /** The old news is made ready: a call that has only read returns first, without a swap. */
  lemma MakeReady(max: int, s: World, id: CallId, key: Key, value: Value) returns (more: seq<WStep>)
    requires WInv(max, s) && OldNews(s, id, key, value)
    ensures var t := RunFrom(max, s, more);
      && t.waiters == s.waiters && |t.store.log| == |s.store.log| && Current(t.store) == Current(s.store)
      && id in t.store.calls && t.store.calls[id].pc.Returned? && (key, value) in NoteOf(t, id).todo
  {
    if s.store.calls[id].pc.Returned? {
      more := [];
    } else {
      var step := OnStore(Compute(id, Some(s.store.calls[id].pc.base)));
      more := [step];
      assert CallOk(max, s.store, id);
      assert id in s.notes ==> NoteOk(s, id);
      assert RunFrom(max, s, more) == RunFrom(max, WDo(max, s, step), []);
    }
  }

  /** From the first check to the return, one call's old news being all that happens. */
  lemma OldNewsIsReturned(max: int, s: World, id: CallId, w: WaiterId, value: Value) returns (more: seq<WStep>)
    requires WInv(max, s) && w in s.waiters && s.waiters[w].pc.Checking? && !s.waiters[w].event
    requires OldNews(s, id, s.waiters[w].key, value) && s.waiters[w].pred(value)
    requires !s.waiters[w].pred(Get(Current(s.store), s.waiters[w].key))
    ensures var t := RunFrom(max, s, more);
      && |t.store.log| == |s.store.log| && Current(t.store) == Current(s.store)
      && w in t.waiters && t.waiters[w].pc.Gone? && t.waiters[w].pc.outcome.Got?
  {
    var key, pred := s.waiters[w].key, s.waiters[w].pred;
    var ready := MakeReady(max, s, id, key, value);
    var s1 := RunFrom(max, s, ready);
    Parks(max, s1, w);
    ThreeSteps(max, s1, w);
    var s2 := RunFrom(max, s1, Thrice(w));
    assert WillHear(s2, id, w, key, pred) by { assert NoteOf(s2, id) == NoteOf(s1, id); }
    var news := Announcing(max, s2, id, w, key, pred, |NoteOf(s2, id).todo|, |NoteOf(s2, id).queue|);
    var s3 := RunFrom(max, s2, news);
    Returns(max, s3, w);
    ThreeSteps(max, s3, w);
    more := ready + (Thrice(w) + (news + Thrice(w)));
    RunFromConcat(max, s, ready, Thrice(w) + (news + Thrice(w)));
    RunFromConcat(max, s1, Thrice(w), news + Thrice(w));
    RunFromConcat(max, s2, news, Thrice(w));
  }

  /** A value that satisfies a predicate false of the current value is not the current value. */
  lemma NotTheCurrent(s: State, t: State, key: Key, pred: Value -> bool, value: Value)
    requires HistOk(t) && |t.log| == |s.log| && pred(value) && !pred(Get(Current(t), key))
    ensures NeverDuring(s, t, key, value)
  {}

  lemma {:induction false} OldNewsMakesStale(
    max: int, before: seq<WStep>, w: WaiterId, key: Key, pred: Value -> bool, s: World, id: CallId, value: Value)
    returns (more: seq<WStep>)
    requires s == WExec(max, before) && w !in s.waiters && !pred(Get(Current(s.store), key))
    requires OldNews(s, id, key, value) && pred(value)
    ensures Stale(max, before, w, key, pred, more)
  {
    var start := before + [StartWait(w, key, pred)];
    WExecSnoc(max, before, StartWait(w, key, pred));
    WExecKeepsInv(max, start);
    more := OldNewsIsReturned(max, WExec(max, start), id, w, value);
    RunFromIsExec(max, start, more, WExec(max, start), start + more);
    var t := WExec(max, start + more);
    WExecKeepsInv(max, start + more);
    AlwaysTrail(max, before, w, key, pred, more, s);
    OnlySatisfyingValuesReturned(max, start + more, w);
    NotTheCurrent(s.store, t.store, key, pred, t.waiters[w].pc.outcome.value);
  }

  /**
   The exact condition: a `wait_for` that does not return at once can return a
   value that the key does not have at any time during the call if and only if,
   when it begins, some call has satisfying old news of the key.
   */
  lemma {:induction false} StaleIffOldNews(
    max: int, before: seq<WStep>, w: WaiterId, key: Key, pred: Value -> bool, s: World)
    requires s == WExec(max, before) && w !in s.waiters && !pred(Get(Current(s.store), key))
    ensures (exists more :: Stale(max, before, w, key, pred, more))
       <==> exists id, value :: OldNews(s, id, key, value) && pred(value)
  {
    if more :| Stale(max, before, w, key, pred, more) {
      StaleNeedsOldNews(max, before, w, key, pred, more, s);
    }
    if id, value :| OldNews(s, id, key, value) && pred(value) {
      var more := OldNewsMakesStale(max, before, w, key, pred, s, id, value);
    }
  }

  // ---- a run -----------------------------------------------------------------------

  const FIRST: Op := Set("a", Obj(1))
  const SECOND: Op := Set("a", Obj(2))
  const IS_FIRST: Value -> bool := v => v == Obj(1)

  /** Two `set` calls swap one after the other; neither has announced anything yet. */
  const TWO_SETS: seq<WStep> := [
    OnStore(Begin(0, FIRST)), OnStore(Read(0)), OnStore(Compute(0, None)), OnStore(Swap(0)),
    OnStore(Begin(1, SECOND)), OnStore(Read(1)), OnStore(Compute(1, None)), OnStore(Swap(1))]

  lemma TwoSetsStep(i: nat)
    requires i < |TWO_SETS|
    ensures WExec(1, TWO_SETS[..i + 1]) == WDo(1, WExec(1, TWO_SETS[..i]), TWO_SETS[i])
  {
    assert TWO_SETS[..i + 1][..i] == TWO_SETS[..i];
  }

  ghost predicate FirstIs(s: World, pc: Pc) {
    && s.notes == map[] && s.waiters == map[] && 0 in s.store.calls
    && s.store.calls[0].op == FIRST && s.store.calls[0].pc == pc
  }

  lemma FirstComputes()
    ensures var s := WExec(1, TWO_SETS[..3]);
      && FirstIs(s, Swapping(0, 0, 1, 0)) && s.store.calls.Keys == {0}
      && s.store.ref == 0 && s.store.heap == [map[], map["a" := Obj(1)]] && |s.store.log| == 0
  {
    assert WExec(1, TWO_SETS[..0]) == START;
    TwoSetsStep(0);
    TwoSetsStep(1);
    TwoSetsStep(2);
  }

  lemma FirstSwaps()
    ensures var s := WExec(1, TWO_SETS[..4]);
      && FirstIs(s, Returned(1, 0, true)) && s.store.calls.Keys == {0}
      && s.store.ref == 1 && s.store.heap == [map[], map["a" := Obj(1)]] && |s.store.log| == 1
  {
    FirstComputes();
    TwoSetsStep(3);
  }

  lemma SecondReads()
    ensures var s := WExec(1, TWO_SETS[..6]);
      && FirstIs(s, Returned(1, 0, true)) && s.store.calls.Keys == {0, 1}
      && s.store.calls[1].op == SECOND && s.store.calls[1].pc == Computing(0, 1, 1)
      && s.store.ref == 1 && s.store.heap == [map[], map["a" := Obj(1)]] && |s.store.log| == 1
  {
    FirstSwaps();
    TwoSetsStep(4);
    TwoSetsStep(5);
  }

  lemma SecondComputes()
    ensures var s := WExec(1, TWO_SETS[..7]);
      && FirstIs(s, Returned(1, 0, true)) && s.store.calls.Keys == {0, 1}
      && s.store.calls[1].op == SECOND && s.store.calls[1].pc == Swapping(0, 1, 2, 1)
      && s.store.ref == 1 && |s.store.heap| == 3 && s.store.heap[2] == map["a" := Obj(2)] && |s.store.log| == 1
  {
    SecondReads();
    TwoSetsStep(6);
  }

  /** A `wait_for` that begins now, with 2 in the store, can return the 1 of before. */
  lemma LateAnnouncementIsReturned() returns (more: seq<WStep>)
    ensures Get(Current(WExec(1, TWO_SETS).store), "a") == Obj(2)
    ensures Stale(1, TWO_SETS, 0, "a", IS_FIRST, more)
  {
    SecondComputes();
    TwoSetsStep(7);
    assert TWO_SETS[..8] == TWO_SETS;
    var s := WExec(1, TWO_SETS);
    assert NoteOf(s, 0).todo == [("a", Obj(1))];
    more := OldNewsMakesStale(1, TWO_SETS, 0, "a", IS_FIRST, s, 0, Obj(1));
  }
}
