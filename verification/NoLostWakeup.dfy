/** `wait_for` loses no wakeup, in any interleaving. */
module NoLostWakeup {
  import opened Values
  import opened CasStore
  import opened Registry
  import opened Linearizability
  import opened WaitFor

  /** A waiter that a step does not touch stays as safe as it was. */
  lemma UntouchedWaiter(s: World, s': World, w: WaiterId)
    requires HistOk(s.store) && LogOk(s.store) && s'.store == s.store && s'.notes == s.notes
    requires w in s.waiters && w in s'.waiters && s'.waiters[w] == s.waiters[w]
    requires WaiterOk(s, w)
    requires var me := s.waiters[w];
      Subscribed(me.pc) ==> Sub(me.sub, Check(w)) in Listed(s'.reg, Some(me.key))
    ensures WaiterOk(s', w)
  {
    var me := s.waiters[w];
    if me.pc.Parked? {
      forall p | me.pc.pos <= p < |s'.store.log| ensures Covered(s', w, me, p) {
        assert Covered(s, w, me, p);
      }
    }
  }

  // ---- steps of the store ---------------------------------------------

  /** A new commit comes from a call that has announced nothing yet. */
  lemma NewCommitIsUnannounced(max: int, s: World, step: Step, p: nat)
    requires WInv(max, s)
    requires var t := Do(max, s.store, step); |s.store.log| <= p < |t.log|
    ensures Do(max, s.store, step).log[p].id !in s.notes
  {
    var t := Do(max, s.store, step);
    DoLater(max, s.store, step);
    DoKeepsInv(max, s.store, step);
    var id := t.log[p].id;
    assert t.calls[id].pc.Returned? && t.calls[id].pc.swapped && t.calls[id].pc.at == p;
    assert id in s.store.calls && s.store.calls[id].pc.Returned? ==>
      CallOk(max, s.store, id) && t.calls[id] == s.store.calls[id];
    assert id in s.notes ==> NoteOk(s, id);
  }

  lemma StoreStepKeepsCovered(max: int, s: World, step: Step, w: WaiterId, p: nat)
    requires WInv(max, s) && w in s.waiters && s.waiters[w].pc.Parked?
    requires var s' := s.(store := Do(max, s.store, step));
      HistOk(s'.store) && LogOk(s'.store) && s.waiters[w].pc.pos <= p < |s'.store.log|
    ensures Covered(s.(store := Do(max, s.store, step)), w, s.waiters[w], p)
  {
    DoLater(max, s.store, step);
    assert WaiterOk(s, w);
    if p < |s.store.log| {
      assert Covered(s, w, s.waiters[w], p);
      assert s.store.calls[s.store.log[p].id].pc.Returned?;
    } else {
      NewCommitIsUnannounced(max, s, step, p);
    }
  }

  lemma StoreStepKeepsInv(max: int, s: World, step: Step)
    requires WInv(max, s)
    ensures WInv(max, s.(store := Do(max, s.store, step)))
  {
    var s' := s.(store := Do(max, s.store, step));
    DoKeepsInv(max, s.store, step);
    DoLater(max, s.store, step);
    forall id | id in s'.notes ensures NoteOk(s', id) {
      assert NoteOk(s, id);
    }
    forall w | w in s'.waiters ensures WaiterOk(s', w) {
      assert WaiterOk(s, w);
      if s.waiters[w].pc.Parked? {
        forall p | s.waiters[w].pc.pos <= p < |s'.store.log| ensures Covered(s', w, s.waiters[w], p) {
          StoreStepKeepsCovered(max, s, step, w, p);
        }
      }
    }
  }

  // ---- steps of a notifying writer --------------------------------------

  /** Whoever has subscribed is in the audience a writer captures. */
  lemma CaptureKeepsCovered(s: World, id: CallId, w: WaiterId, me: Waiter, p: nat)
    requires HistOk(s.store) && LogOk(s.store) && p < |s.store.log| && Covered(s, w, me, p)
    requires Sub(me.sub, Check(w)) in Listed(s.reg, Some(me.key))
    ensures Covered(DoCapture(s, id), w, me, p)
  {
    var s' := DoCapture(s, id);
    if s' != s && s.store.log[p].id == id {
      var n := NoteOf(s, id);
      if i :| 0 <= i < |n.todo| && n.todo[i].0 == me.key {
        if i == 0 {
          assert Sub(me.sub, Check(w)) in s'.notes[id].queue;
        } else {
          assert s'.notes[id].todo[i - 1].0 == me.key;
        }
      }
    }
  }

  lemma CaptureKeepsInv(max: int, s: World, id: CallId)
    requires WInv(max, s)
    ensures WInv(max, DoCapture(s, id))
  {
    var s' := DoCapture(s, id);
    if s' != s {
      var n := NoteOf(s, id);
      if id in s.notes { assert NoteOk(s, id); }
      assert n.todo[0] in n.todo;
      forall i | i in s'.notes ensures NoteOk(s', i) {
        if i != id { assert NoteOk(s, i); }
      }
      forall w | w in s'.waiters ensures WaiterOk(s', w) {
        assert WaiterOk(s, w);
        if s.waiters[w].pc.Parked? {
          forall p | s.waiters[w].pc.pos <= p < |s.store.log| ensures Covered(s', w, s.waiters[w], p) {
            CaptureKeepsCovered(s, id, w, s.waiters[w], p);
          }
        }
      }
    }
  }

  /** The one callback that can leave the queue is the waiter's own, and then it has just been told the truth. */
  lemma DeliverKeepsCovered(s: World, id: CallId, w: WaiterId, p: nat)
    requires HistOk(s.store) && LogOk(s.store) && p < |s.store.log|
    requires w in s.waiters && Covered(s, w, s.waiters[w], p)
    requires id in s.notes && s.notes[id].queue != []
    requires s.store.log[p].id == id ==>
      s.notes[id].value == Get(s.store.heap[s.store.hist[p + 1]], s.notes[id].key)
    ensures w in DoDeliver(s, id).waiters && Covered(DoDeliver(s, id), w, DoDeliver(s, id).waiters[w], p)
  {
    var queue := s.notes[id].queue;
    assert forall x :: x in queue ==> x == queue[0] || x in queue[1..];
  }

  lemma DeliverKeepsWaiter(max: int, s: World, id: CallId, w: WaiterId)
    requires WInv(max, s) && id in s.notes && s.notes[id].queue != [] && w in s.waiters
    ensures w in DoDeliver(s, id).waiters && WaiterOk(DoDeliver(s, id), w)
  {
    var s' := DoDeliver(s, id);
    assert WaiterOk(s, w) && NoteOk(s, id);
    if s.waiters[w].pc.Parked? {
      forall p | s.waiters[w].pc.pos <= p < |s.store.log| ensures Covered(s', w, s'.waiters[w], p) {
        if s.store.log[p].id == id { NewsIsTrue(max, s.store, p, (s.notes[id].key, s.notes[id].value)); }
        DeliverKeepsCovered(s, id, w, p);
      }
    }
  }

  lemma DeliverKeepsInv(max: int, s: World, id: CallId)
    requires WInv(max, s)
    ensures WInv(max, DoDeliver(s, id))
  {
    if id in s.notes && s.notes[id].queue != [] {
      var s' := DoDeliver(s, id);
      forall i | i in s'.notes ensures NoteOk(s', i) {
        assert NoteOk(s, i);
      }
      forall w | w in s'.waiters ensures WaiterOk(s', w) {
        DeliverKeepsWaiter(max, s, id, w);
      }
    }
  }

  // ---- steps of a waiter and of other subscribers ------------------------

  lemma IdsTell(r: Reg, slot: Slot, x: Sub, y: Sub)
    requires Registry.Ok(r) && x in Listed(r, slot) && y in Listed(r, slot) && x.id == y.id
    ensures x == y
  {
    var i :| 0 <= i < |Listed(r, slot)| && Listed(r, slot)[i] == x;
    var j :| 0 <= j < |Listed(r, slot)| && Listed(r, slot)[j] == y;
    assert Ascending(Listed(r, slot));
  }

  /** Leaving takes the waiter's own callback off the list and nobody else's. */
  lemma LeavingKeepsOthers(max: int, s: World, w: WaiterId, v: WaiterId)
    requires WInv(max, s) && w in s.waiters && v in s.waiters && v != w
    requires s.waiters[w].pc.Leaving? && Subscribed(s.waiters[v].pc)
    ensures var me, you := s.waiters[w], s.waiters[v];
      Sub(you.sub, Check(v)) in Listed(Remove(s.reg, Some(me.key), me.sub), Some(you.key))
  {
    var me, you := s.waiters[w], s.waiters[v];
    assert WaiterOk(s, w) && WaiterOk(s, v);
    RemoveExactly(s.reg, Some(me.key), me.sub, Some(you.key), Sub(you.sub, Check(v)));
    if you.key == me.key && you.sub == me.sub {
      IdsTell(s.reg, Some(me.key), Sub(me.sub, Check(w)), Sub(you.sub, Check(v)));
      assert false;
    }
  }

  /** Whoever parks has just seen its predicate false. */
  lemma RecheckKeepsOwn(s: World, w: WaiterId)
    requires HistOk(s.store) && LogOk(s.store) && w in s.waiters && WaiterOk(s, w) && s.waiters[w].pc.Rechecking?
    ensures WaiterOk(DoAdvance(s, w, s.waiters[w]), w)
  {}

  lemma AdvanceKeepsOwn(s: World, w: WaiterId)
    requires HistOk(s.store) && LogOk(s.store) && w in s.waiters && WaiterOk(s, w)
    ensures WaiterOk(DoAdvance(s, w, s.waiters[w]), w)
  {
    match s.waiters[w].pc
    case Rechecking => RecheckKeepsOwn(s, w);
    case Parked(_) => if !s.waiters[w].event { UntouchedWaiter(s, DoAdvance(s, w, s.waiters[w]), w); }
    case Subscribing => AddListed(s.reg, Some(s.waiters[w].key), Check(w), Some(s.waiters[w].key));
    case _ =>
  }

  lemma AdvanceKeepsListed(max: int, s: World, w: WaiterId, v: WaiterId)
    requires WInv(max, s) && w in s.waiters && v in s.waiters && v != w && Subscribed(s.waiters[v].pc)
    ensures Sub(s.waiters[v].sub, Check(v)) in Listed(DoAdvance(s, w, s.waiters[w]).reg, Some(s.waiters[v].key))
  {
    assert WaiterOk(s, v);
    if s.waiters[w].pc.Leaving? {
      LeavingKeepsOthers(max, s, w, v);
    } else if s.waiters[w].pc.Subscribing? {
      AddListed(s.reg, Some(s.waiters[w].key), Check(w), Some(s.waiters[v].key));
    }
  }

  /** A waiter's step leaves the store, the notifications and everyone else's subscription. */
  lemma AdvanceKeepsSubscribed(max: int, s: World, w: WaiterId, v: WaiterId)
    requires WInv(max, s) && w in s.waiters && v in s.waiters && v != w
    ensures var s' := DoAdvance(s, w, s.waiters[w]);
      && s'.store == s.store && s'.notes == s.notes && v in s'.waiters && s'.waiters[v] == s.waiters[v]
      && (Subscribed(s.waiters[v].pc) ==> Sub(s.waiters[v].sub, Check(v)) in Listed(s'.reg, Some(s.waiters[v].key)))
  {
    if Subscribed(s.waiters[v].pc) { AdvanceKeepsListed(max, s, w, v); }
  }

  lemma AdvanceKeepsOther(max: int, s: World, w: WaiterId, v: WaiterId)
    requires WInv(max, s) && w in s.waiters && v in s.waiters && v != w
    ensures WaiterOk(DoAdvance(s, w, s.waiters[w]), v)
  {
    AdvanceKeepsSubscribed(max, s, w, v);
    UntouchedWaiter(s, DoAdvance(s, w, s.waiters[w]), v);
  }

  lemma AdvanceKeepsRest(max: int, s: World, w: WaiterId)
    requires WInv(max, s) && w in s.waiters
    ensures var s' := DoAdvance(s, w, s.waiters[w]);
      && s'.store == s.store && s'.notes == s.notes && s'.waiters.Keys == s.waiters.Keys && Registry.Ok(s'.reg)
  {
    AddKeepsOk(s.reg, Some(s.waiters[w].key), Check(w));
    RemoveKeepsOk(s.reg, Some(s.waiters[w].key), s.waiters[w].sub);
  }

  lemma AdvanceKeepsInv(max: int, s: World, w: WaiterId)
    requires WInv(max, s) && w in s.waiters
    ensures WInv(max, DoAdvance(s, w, s.waiters[w]))
  {
    var s' := DoAdvance(s, w, s.waiters[w]);
    AdvanceKeepsRest(max, s, w);
    forall id | id in s'.notes ensures NoteOk(s', id) { assert NoteOk(s, id); }
    forall v | v in s'.waiters ensures WaiterOk(s', v) {
      if v == w { AdvanceKeepsOwn(s, w); } else { AdvanceKeepsOther(max, s, w, v); }
    }
  }

  lemma RegistryStepKeepsInv(max: int, s: World, reg: Reg)
    requires WInv(max, s) && Registry.Ok(reg)
    requires forall slot, x :: x in Listed(s.reg, slot) && x.callback.Check? ==> x in Listed(reg, slot)
    ensures WInv(max, s.(reg := reg))
  {
    var s' := s.(reg := reg);
    forall id | id in s'.notes ensures NoteOk(s', id) { assert NoteOk(s, id); }
    forall w | w in s'.waiters ensures WaiterOk(s', w) {
      assert WaiterOk(s, w);
      UntouchedWaiter(s, s', w);
    }
  }

  /** A waiter's arrival or timeout moves that waiter only. */
  lemma WaiterStepKeepsInv(max: int, s: World, w: WaiterId, me: Waiter)
    requires WInv(max, s) && ResultOk(me) && !me.pc.Parked?
    requires Subscribed(me.pc) ==> Sub(me.sub, Check(w)) in Listed(s.reg, Some(me.key))
    ensures WInv(max, s.(waiters := s.waiters[w := me]))
  {
    var s' := s.(waiters := s.waiters[w := me]);
    forall id | id in s'.notes ensures NoteOk(s', id) { assert NoteOk(s, id); }
    forall v | v in s'.waiters && v != w ensures WaiterOk(s', v) {
      assert WaiterOk(s, v);
      UntouchedWaiter(s, s', v);
    }
  }

  lemma WDoKeepsInv(max: int, s: World, step: WStep)
    requires WInv(max, s)
    ensures WInv(max, WDo(max, s, step))
  {
    match step
    case OnStore(st) => StoreStepKeepsInv(max, s, st);
    case Capture(id) => CaptureKeepsInv(max, s, id);
    case Deliver(id) => DeliverKeepsInv(max, s, id);
    case StartWait(w, key, pred) =>
      if w !in s.waiters { WaiterStepKeepsInv(max, s, w, Waiter(key, pred, Checking, 0, false, Null, |s.store.log|, 0)); }
    case Advance(w) => if w in s.waiters { AdvanceKeepsInv(max, s, w); }
    case Timeout(w) =>
      if w in s.waiters {
        assert WaiterOk(s, w);
        WaiterStepKeepsInv(max, s, w,
          if s.waiters[w].pc.Parked? then s.waiters[w].(pc := Leaving(TimedOut)) else s.waiters[w].(pc := Gone(TimedOut)));
      }
    case OtherSubscribe(slot, name) =>
      AddKeepsOk(s.reg, slot, Plain(name));
      forall other ensures Listed(s.reg, other) <= Listed(Add(s.reg, slot, Plain(name)), other) {
        AddListed(s.reg, slot, Plain(name), other);
      }
      RegistryStepKeepsInv(max, s, Add(s.reg, slot, Plain(name)));
    case OtherCancel(slot, id) =>
      if HeldByOthers(s.reg, slot, id) {
        RemoveKeepsOk(s.reg, slot, id);
        forall other, x | x in Listed(s.reg, other) && x.callback.Check?
          ensures x in Listed(Remove(s.reg, slot, id), other)
        {
          RemoveExactly(s.reg, slot, id, other, x);
        }
        RegistryStepKeepsInv(max, s, Remove(s.reg, slot, id));
      }
  }

  lemma {:induction false} WExecKeepsInv(max: int, schedule: seq<WStep>)
    ensures WInv(max, WExec(max, schedule))
  {
    if schedule != [] {
      WExecKeepsInv(max, schedule[..|schedule| - 1]);
      WDoKeepsInv(max, WExec(max, schedule[..|schedule| - 1]), schedule[|schedule| - 1]);
    }
  }

  // ---- the theorems --------------------------------------------------------

  /** Writer `id` returned and still has callbacks ahead of it. */
  predicate Notifying(s: World, id: CallId) {
    && id in s.store.calls && s.store.calls[id].pc.Returned?
    && (NoteOf(s, id).todo != [] || NoteOf(s, id).queue != [])
  }

  ghost predicate Sound(s: World) {
    HistOk(s.store) && LogOk(s.store)
  }

  /** The waiter's predicate at log position q. */
  ghost predicate TrueAt(s: State, me: Waiter, q: nat)
    requires HistOk(s) && q <= |s.log|
  {
    me.pred(Get(s.heap[s.hist[q]], me.key))
  }

  /** Commit number p is a bare `mutate`, which announces nothing, and it made the waiter's predicate true. */
  ghost predicate SilentFlip(s: State, me: Waiter, p: nat)
    requires HistOk(s) && p < |s.log|
  {
    s.log[p].op.Mutate? && !TrueAt(s, me, p) && TrueAt(s, me, p + 1)
  }

  ghost predicate FlippedSilently(s: World, me: Waiter)
    requires HistOk(s.store) && me.pc.Parked?
  {
    exists p :: me.pc.pos <= p < |s.store.log| && SilentFlip(s.store, me, p)
  }

  /** Commit number p, made after the re-check, turned the predicate true, and it has been true ever since. */
  ghost predicate LastTurn(s: World, me: Waiter, p: nat)
    requires Sound(s) && me.pc.Parked?
  {
    && me.pc.pos <= p < |s.store.log| && !TrueAt(s.store, me, p)
    && forall q :: p < q <= |s.store.log| ==> TrueAt(s.store, me, q)
  }

  /** The writer that turned the predicate true still has this waiter's callback ahead of it. */
  ghost predicate WakeupComing(s: World, w: WaiterId, me: Waiter)
    requires Sound(s) && me.pc.Parked?
  {
    exists p: nat :: LastTurn(s, me, p)
      && Notifying(s, s.store.log[p].id) && Outstanding(s, s.store.log[p].id, w, me)
  }

  /** A bare `mutate` turned the predicate true, and it has stayed true. */
  ghost predicate LastingFlip(s: World, me: Waiter, p: nat)
    requires Sound(s) && me.pc.Parked?
  {
    LastTurn(s, me, p) && s.store.log[p].op.Mutate?
  }

  lemma {:induction false} LastFalse(s: State, me: Waiter, from: nat, end: nat) returns (p: nat)
    requires HistOk(s) && from <= end <= |s.log| && !TrueAt(s, me, from) && TrueAt(s, me, end)
    ensures from <= p < end && !TrueAt(s, me, p) && forall q :: p < q <= end ==> TrueAt(s, me, q)
    decreases end
  {
    if TrueAt(s, me, end - 1) {
      p := LastFalse(s, me, from, end - 1);
    } else {
      p := end - 1;
    }
  }

  /** A commit that turns a predicate true changes the key, so unless it is silent it announces the key. */
  lemma TurnIsAnnounced(max: int, s: State, me: Waiter, p: nat)
    requires Inv(max, s) && p < |s.log| && !TrueAt(s, me, p) && TrueAt(s, me, p + 1) && !s.log[p].op.Mutate?
    ensures Announces(News(s.calls[s.log[p].id].op, s.calls[s.log[p].id].box), me.key)
  {
    if !Announces(News(s.calls[s.log[p].id].op, s.calls[s.log[p].id].box), me.key) {
      SilentMeansUnchanged(max, s, p, me.key);
    }
  }

  /** A writer with nothing left to announce has nothing left for this waiter. */
  lemma DoneWithEveryone(s: World, w: WaiterId, me: Waiter, p: nat)
    requires Sound(s) && p < |s.store.log| && !Notifying(s, s.store.log[p].id)
    ensures !Outstanding(s, s.store.log[p].id, w, me)
  {}

  /** Whatever turned the predicate true is silent, or is still to be heard. */
  lemma TurnIsHeardOrSilent(max: int, s: World, w: WaiterId, p: nat)
    requires WInv(max, s) && w in s.waiters && s.waiters[w].pc.Parked? && !s.waiters[w].event
    requires s.waiters[w].pc.pos <= p < |s.store.log|
    requires !TrueAt(s.store, s.waiters[w], p) && TrueAt(s.store, s.waiters[w], p + 1)
    ensures s.store.log[p].op.Mutate? ||
      (Notifying(s, s.store.log[p].id) && Outstanding(s, s.store.log[p].id, w, s.waiters[w]))
  {
    assert WaiterOk(s, w);
    assert Covered(s, w, s.waiters[w], p);
    if !s.store.log[p].op.Mutate? {
      TurnIsAnnounced(max, s.store, s.waiters[w], p);
      if !Notifying(s, s.store.log[p].id) { DoneWithEveryone(s, w, s.waiters[w], p); }
    }
  }

  /**
   Whenever a parked waiter's predicate is true of the key's current value and
   its event is not set, the very commit that turned it true for good is a bare
   `mutate`, or its writer is about to call this waiter with the news.
   */
  lemma WakeupIsOnItsWay(max: int, schedule: seq<WStep>, w: WaiterId)
    requires var s := WExec(max, schedule);
      && w in s.waiters && s.waiters[w].pc.Parked? && !s.waiters[w].event
      && s.waiters[w].pred(Get(Current(s.store), s.waiters[w].key))
    ensures var s := WExec(max, schedule);
      Sound(s) && (WakeupComing(s, w, s.waiters[w]) || exists p: nat :: LastingFlip(s, s.waiters[w], p))
  {
    var s := WExec(max, schedule);
    WExecKeepsInv(max, schedule);
    LastTurnExists(max, s, w);
  }

  lemma TurnSinceParking(max: int, s: World, w: WaiterId) returns (p: nat)
    requires WInv(max, s) && w in s.waiters && s.waiters[w].pc.Parked?
    requires s.waiters[w].pred(Get(Current(s.store), s.waiters[w].key))
    ensures LastTurn(s, s.waiters[w], p)
  {
    assert WaiterOk(s, w);
    p := LastFalse(s.store, s.waiters[w], s.waiters[w].pc.pos, |s.store.log|);
  }

  lemma LastTurnExists(max: int, s: World, w: WaiterId)
    requires WInv(max, s) && w in s.waiters && s.waiters[w].pc.Parked? && !s.waiters[w].event
    requires s.waiters[w].pred(Get(Current(s.store), s.waiters[w].key))
    ensures WakeupComing(s, w, s.waiters[w]) || exists p: nat :: LastingFlip(s, s.waiters[w], p)
  {
    var p := TurnSinceParking(max, s, w);
    TurnIsHeardOrSilent(max, s, w, p);
    TurnDecides(s, w, s.waiters[w], p);
  }

  lemma TurnDecides(s: World, w: WaiterId, me: Waiter, p: nat)
    requires Sound(s) && me.pc.Parked? && LastTurn(s, me, p)
    requires s.store.log[p].op.Mutate? || (Notifying(s, s.store.log[p].id) && Outstanding(s, s.store.log[p].id, w, me))
    ensures WakeupComing(s, w, me) || exists p: nat :: LastingFlip(s, me, p)
  {
    if s.store.log[p].op.Mutate? { assert LastingFlip(s, me, p); }
  }

  /** With no notification outstanding and no bare `mutate` at work, no waiter sleeps on a predicate that is already true. */
  lemma NoWakeupIsLost(max: int, schedule: seq<WStep>, w: WaiterId)
    requires var s := WExec(max, schedule);
      && w in s.waiters && s.waiters[w].pc.Parked? && !s.waiters[w].event
      && (forall id :: !Notifying(s, id))
      && Sound(s) && !FlippedSilently(s, s.waiters[w])
    ensures var s := WExec(max, schedule);
      !s.waiters[w].pred(Get(Current(s.store), s.waiters[w].key))
  {
    var s := WExec(max, schedule);
    if s.waiters[w].pred(Get(Current(s.store), s.waiters[w].key)) {
      WakeupIsOnItsWay(max, schedule, w);
      var p: nat :| LastingFlip(s, s.waiters[w], p);
      assert SilentFlip(s.store, s.waiters[w], p);
      assert false;
    }
  }

  /** In particular when every writer uses `set`, `mset`, `atomic` or `delete`. */
  lemma NoWakeupIsLostToNotifyingWriters(max: int, schedule: seq<WStep>, w: WaiterId)
    requires var s := WExec(max, schedule);
      && w in s.waiters && s.waiters[w].pc.Parked? && !s.waiters[w].event
      && (forall id :: !Notifying(s, id))
      && (forall c :: c in s.store.log ==> !c.op.Mutate?)
    ensures var s := WExec(max, schedule);
      !s.waiters[w].pred(Get(Current(s.store), s.waiters[w].key))
  {
    WExecKeepsInv(max, schedule);
    var s := WExec(max, schedule);
    forall p | 0 <= p < |s.store.log| ensures !s.store.log[p].op.Mutate? {
      assert s.store.log[p] in s.store.log;
    }
    NoWakeupIsLost(max, schedule, w);
  }

  /** Whatever callbacks race, a set event comes with a satisfying result, and `wait_for` only returns satisfying values. */
  lemma OnlySatisfyingValuesReturned(max: int, schedule: seq<WStep>, w: WaiterId)
    requires w in WExec(max, schedule).waiters
    ensures var me := WExec(max, schedule).waiters[w];
      && (me.event ==> me.pred(me.result))
      && (me.pc.Gone? && me.pc.outcome.Got? ==> me.pred(me.pc.outcome.value))
  {
    WExecKeepsInv(max, schedule);
    assert WaiterOk(WExec(max, schedule), w);
  }

  /** A sleeping waiter is in the audience of whatever is announced next about its key. */
  lemma SleeperIsAlwaysSubscribed(max: int, schedule: seq<WStep>, w: WaiterId)
    requires w in WExec(max, schedule).waiters && WExec(max, schedule).waiters[w].pc.Parked?
    ensures var s := WExec(max, schedule);
      Sub(s.waiters[w].sub, Check(w)) in Audience(s.reg, s.waiters[w].key)
  {
    WExecKeepsInv(max, schedule);
    assert WaiterOk(WExec(max, schedule), w);
  }

  // ---- nothing is left behind ------------------------------------------------

  /** Every `_check` in the registry belongs to a waiter that is still under way, under its own id. */
  ghost predicate Tidy(s: World) {
    forall slot, x :: x in Listed(s.reg, slot) && x.callback.Check? ==> Owned(s, slot, x)
  }

  ghost predicate Owned(s: World, slot: Slot, x: Sub)
    requires x.callback.Check?
  {
    var w := x.callback.waiter;
    && w in s.waiters && Subscribed(s.waiters[w].pc)
    && slot == Some(s.waiters[w].key) && x.id == s.waiters[w].sub
  }

  lemma AdvanceKeepsTidy(s: World, w: WaiterId)
    requires Tidy(s) && w in s.waiters
    ensures Tidy(DoAdvance(s, w, s.waiters[w]))
  {
    var me := s.waiters[w];
    var s' := DoAdvance(s, w, me);
    forall slot, x | x in Listed(s'.reg, slot) && x.callback.Check? ensures Owned(s', slot, x) {
      if me.pc.Subscribing? { AddListed(s.reg, Some(me.key), Check(w), slot); }
      if me.pc.Leaving? { RemoveExactly(s.reg, Some(me.key), me.sub, slot, x); }
      if x in Listed(s.reg, slot) { assert Owned(s, slot, x); }
    }
  }

  lemma WDoKeepsTidy(max: int, s: World, step: WStep)
    requires Tidy(s)
    ensures Tidy(WDo(max, s, step))
  {
    var s' := WDo(max, s, step);
    if step.Advance? {
      if step.w in s.waiters { AdvanceKeepsTidy(s, step.w); }
    } else {
      forall slot, x | x in Listed(s'.reg, slot) && x.callback.Check? ensures Owned(s', slot, x) {
        if step.OtherSubscribe? { AddListed(s.reg, step.slot, Plain(step.name), slot); }
        if step.OtherCancel? { RemoveExactly(s.reg, step.slot, step.id, slot, x); }
        assert Owned(s, slot, x);
      }
    }
  }

  lemma {:induction false} AlwaysTidy(max: int, schedule: seq<WStep>)
    ensures Tidy(WExec(max, schedule))
  {
    if schedule != [] {
      AlwaysTidy(max, schedule[..|schedule| - 1]);
      WDoKeepsTidy(max, WExec(max, schedule[..|schedule| - 1]), schedule[|schedule| - 1]);
    }
  }

  /** A `wait_for` that is over, by a value or by timeout, has left no callback in any list. */
  lemma NothingLeftBehind(max: int, schedule: seq<WStep>, w: WaiterId, slot: Slot, x: Sub)
    requires w in WExec(max, schedule).waiters && WExec(max, schedule).waiters[w].pc.Gone?
    requires x in Listed(WExec(max, schedule).reg, slot)
    ensures x.callback != Check(w)
  {
    AlwaysTidy(max, schedule);
    assert x.callback.Check? ==> Owned(WExec(max, schedule), slot, x);
  }

  // ---- a bare `mutate` is silent ---------------------------------------------

  const FLIP: Op := Mutate(m => m["a" := Obj(1)])
  const IS_ONE: Value -> bool := v => v == Obj(1)

  /** A waiter parks on `a`; then one bare `mutate` writes `a`, from start to end. */
  const STRANDING: seq<WStep> := [
    StartWait(0, "a", IS_ONE), Advance(0), Advance(0), Advance(0),
    OnStore(Begin(0, FLIP)), OnStore(Read(0)), OnStore(Compute(0, None)), OnStore(Swap(0))]

  lemma StrandingStep(i: nat)
    requires i < |STRANDING|
    ensures WExec(1, STRANDING[..i + 1]) == WDo(1, WExec(1, STRANDING[..i]), STRANDING[i])
  {
    assert STRANDING[..i + 1][..i] == STRANDING[..i];
  }

  ghost predicate Strands(s: World, pc: WPc) {
    && s.waiters.Keys == {0} && s.notes == map[]
    && s.waiters[0].key == "a" && s.waiters[0].pred == IS_ONE && !s.waiters[0].event && s.waiters[0].pc == pc
  }

  lemma StrandingChecks()
    ensures var s := WExec(1, STRANDING[..2]); Strands(s, Subscribing) && s.store == INIT
  {
    assert WExec(1, STRANDING[..0]) == START;
    StrandingStep(0);
    StrandingStep(1);
  }

  lemma StrandingParks()
    ensures var s := WExec(1, STRANDING[..4]); Strands(s, Parked(0)) && s.store == INIT
  {
    StrandingChecks();
    StrandingStep(2);
    StrandingStep(3);
  }

  ghost predicate FlipAt(s: State, pc: Pc) {
    s.calls.Keys == {0} && s.calls[0].op == FLIP && s.calls[0].pc == pc && s.ref == 0 && |s.log| == 0
  }

  lemma StrandingBegins()
    ensures var s := WExec(1, STRANDING[..5]);
      Strands(s, Parked(0)) && FlipAt(s.store, Loop(0)) && s.store.heap == [map[]]
  {
    StrandingParks();
    StrandingStep(4);
  }

  lemma StrandingReads()
    ensures var s := WExec(1, STRANDING[..6]);
      Strands(s, Parked(0)) && FlipAt(s.store, Computing(0, 0, 0)) && s.store.heap == [map[]]
  {
    StrandingBegins();
    StrandingStep(5);
  }

  lemma StrandingComputes()
    ensures var s := WExec(1, STRANDING[..7]);
      && Strands(s, Parked(0)) && FlipAt(s.store, Swapping(0, 0, 1, 0))
      && s.store.heap == [map[], map["a" := Obj(1)]]
  {
    StrandingReads();
    StrandingStep(6);
  }

  /** The restriction is needed: the predicate is true, nobody has anything left to announce, and the waiter sleeps on. */
  lemma BareMutateStrandsAWaiter()
    ensures var s := WExec(1, STRANDING);
      && 0 in s.waiters && s.waiters[0].pc.Parked? && !s.waiters[0].event
      && (forall id :: !Notifying(s, id))
      && s.waiters[0].pred(Get(Current(s.store), s.waiters[0].key))
  {
    StrandingComputes();
    StrandingStep(7);
    assert STRANDING[..8] == STRANDING;
  }
}
