/**
 Exactly when a waiter sleeps on: a bare `mutate` announces nothing, every other
 writing call wakes whom it satisfies.
 */
module SilentWrites {
  import opened Values
  import opened CasStore
  import opened Registry
  import opened Linearizability
  import opened WaitFor
  import opened NoLostWakeup

  ghost predicate Sleeping(s: World, w: WaiterId) {
    w in s.waiters && s.waiters[w].pc.Parked? && !s.waiters[w].event
  }

  /** No writer has anything left to announce. */
  ghost predicate Quiet(s: World) {
    forall id :: !Notifying(s, id)
  }

  /** Asleep on a predicate that is true, with nobody left to say so. */
  ghost predicate Stranded(s: World, w: WaiterId) {
    Quiet(s) && Sleeping(s, w) && s.waiters[w].pred(Get(Current(s.store), s.waiters[w].key))
  }

  /**
   The exact condition, over every interleaving: a sleeping waiter that nobody
   is about to wake sleeps on a true predicate if and only if a bare `mutate` made
   it true after the re-check and it has been true ever since.
   */
  lemma StrandedIffLastingFlip(max: int, schedule: seq<WStep>, w: WaiterId)
    requires Sleeping(WExec(max, schedule), w) && Quiet(WExec(max, schedule))
    ensures var s := WExec(max, schedule);
      Sound(s) && (Stranded(s, w) <==> exists p: nat :: LastingFlip(s, s.waiters[w], p))
  {
    var s := WExec(max, schedule);
    WExecKeepsInv(max, schedule);
    assert s.waiters[w].pred(Get(Current(s.store), s.waiters[w].key)) <==> TrueAt(s.store, s.waiters[w], |s.store.log|);
    if Stranded(s, w) { LastTurnExists(max, s, w); }
  }

  /**
   A writing call that is not a bare `mutate` and makes the predicate true has
   set the waiter's event by the time it has announced its news, even if the value
   is gone again before the waiter looks.
   */
  lemma NotifyingWriterWakes(max: int, schedule: seq<WStep>, w: WaiterId, p: nat)
    requires var s := WExec(max, schedule);
      && w in s.waiters && s.waiters[w].pc.Parked? && Sound(s)
      && s.waiters[w].pc.pos <= p < |s.store.log|
      && !s.store.log[p].op.Mutate? && !Notifying(s, s.store.log[p].id)
      && !TrueAt(s.store, s.waiters[w], p) && TrueAt(s.store, s.waiters[w], p + 1)
    ensures WExec(max, schedule).waiters[w].event
  {
    WExecKeepsInv(max, schedule);
    if !WExec(max, schedule).waiters[w].event {
      TurnIsHeardOrSilent(max, WExec(max, schedule), w, p);
      assert false;
    }
  }

  // ---- one call, and nobody else moves -------------------------------------------

  /** A step of call `id`, which is `op`, or of its notifications. */
  ghost predicate IsOf(step: WStep, id: CallId, op: Op) {
    match step
    case OnStore(st) => st.id == id && (st.Begin? ==> st.op == op)
    case Capture(i) => i == id
    case Deliver(i) => i == id
    case _ => false
  }

  ghost predicate AllOf(more: seq<WStep>, id: CallId, op: Op) {
    forall i :: 0 <= i < |more| ==> IsOf(more[i], id, op)
  }

  lemma WExecSnoc(max: int, schedule: seq<WStep>, step: WStep)
    ensures WExec(max, schedule + [step]) == WDo(max, WExec(max, schedule), step)
  {
    assert (schedule + [step])[..|schedule|] == schedule;
  }

  /** What one call has moved since `s`. */
  ghost predicate MovedBy(s: World, t: World, w: WaiterId, id: CallId, op: Op) {
    && Grows(s.store, t.store)
    && (id in t.store.calls ==> t.store.calls[id].op == op && |s.store.log| <= t.store.calls[id].started)
    && (forall p :: |s.store.log| <= p < |t.store.log| ==> t.store.log[p] == Commit(id, op))
    && w in s.waiters && w in t.waiters
    && t.waiters[w].pc == s.waiters[w].pc && t.waiters[w].key == s.waiters[w].key && t.waiters[w].pred == s.waiters[w].pred
  }

  lemma StoreStepMoves(max: int, s: World, t: World, w: WaiterId, step: Step, op: Op)
    requires MovedBy(s, t, w, step.id, op) && (step.Begin? ==> step.op == op)
    ensures MovedBy(s, t.(store := Do(max, t.store, step)), w, step.id, op)
  {
    DoLater(max, t.store, step);
  }

  lemma StepMoves(max: int, s: World, t: World, w: WaiterId, step: WStep, id: CallId, op: Op)
    requires MovedBy(s, t, w, id, op) && IsOf(step, id, op)
    ensures MovedBy(s, WDo(max, t, step), w, id, op)
  {
    if step.OnStore? { StoreStepMoves(max, s, t, w, step.step, op); }
  }

  lemma {:induction false} CallMoves(max: int, schedule: seq<WStep>, more: seq<WStep>, w: WaiterId, id: CallId, op: Op)
    requires AllOf(more, id, op) && id !in WExec(max, schedule).store.calls && w in WExec(max, schedule).waiters
    ensures MovedBy(WExec(max, schedule), WExec(max, schedule + more), w, id, op)
  {
    if more == [] {
      assert schedule + more == schedule;
    } else {
      var n := |more| - 1;
      CallMoves(max, schedule, more[..n], w, id, op);
      assert schedule + more == (schedule + more[..n]) + [more[n]];
      WExecSnoc(max, schedule + more[..n], more[n]);
      StepMoves(max, WExec(max, schedule), WExec(max, schedule + more[..n]), w, more[n], id, op);
    }
  }

  lemma CommitsOnce(s: State, p: nat, q: nat)
    requires HistOk(s) && LogOk(s) && p < |s.log| && q < |s.log| && s.log[p].id == s.log[q].id
    ensures p == q
  {}

  /** Alone, a call that returns turns the current map into its transaction's result, by at most one swap. */
  lemma AloneTakesEffect(max: int, s: World, t: World, w: WaiterId, id: CallId, op: Op)
    requires Inv(max, s.store) && Inv(max, t.store) && MovedBy(s, t, w, id, op)
    requires id in t.store.calls && Over(t.store.calls[id].pc)
    ensures |s.store.log| <= |t.store.log| <= |s.store.log| + 1
    ensures t.store.calls[id].pc.Returned? ==> Current(t.store) == Effect(op, Current(s.store))
    ensures !t.store.calls[id].pc.Returned? ==> |t.store.log| == |s.store.log|
  {
    var n, c := |s.store.log|, t.store.calls[id];
    assert CallOk(max, t.store, id);
    forall p | n <= p < |t.store.log| ensures t.store.log[p].id == id && c.pc.Returned? && c.pc.swapped && c.pc.at == p {
      assert t.store.log[p] == Commit(id, op);
    }
    if |t.store.log| > n + 1 { CommitsOnce(t.store, n, n + 1); }
    assert t.store.heap[t.store.hist[n]] == Current(s.store);
  }

  /** A bare `mutate` leaves every waiter and every notification as it was. */
  lemma {:induction false} MutateIsSilent(max: int, schedule: seq<WStep>, more: seq<WStep>, id: CallId, op: Op)
    requires op.Mutate? && AllOf(more, id, op) && id !in WExec(max, schedule).store.calls
    requires id !in WExec(max, schedule).notes
    ensures var s, t := WExec(max, schedule), WExec(max, schedule + more); t.waiters == s.waiters && t.notes == s.notes
    ensures var t := WExec(max, schedule + more); id in t.store.calls ==> t.store.calls[id].op == op
  {
    if more == [] {
      assert schedule + more == schedule;
    } else {
      var n := |more| - 1;
      MutateIsSilent(max, schedule, more[..n], id, op);
      assert schedule + more == (schedule + more[..n]) + [more[n]];
      WExecSnoc(max, schedule + more[..n], more[n]);
      if more[n].OnStore? { DoLater(max, WExec(max, schedule + more[..n]).store, more[n].step); }
    }
  }

  /**
   What a caller can tell beforehand: of a sleeping waiter whose predicate is
   false, with nothing left to announce, one call run from start to end leaves it
   asleep on a true predicate if and only if it is a bare `mutate` whose
   result satisfies the predicate.
   */
  lemma CallStrandsIffSilent(max: int, schedule: seq<WStep>, more: seq<WStep>, w: WaiterId, id: CallId, op: Op)
    requires var s := WExec(max, schedule);
      && Sleeping(s, w) && Quiet(s) && !Stranded(s, w) && id !in s.store.calls && AllOf(more, id, op)
    requires var t := WExec(max, schedule + more);
      id in t.store.calls && Over(t.store.calls[id].pc) && Quiet(t)
    ensures var s, t := WExec(max, schedule), WExec(max, schedule + more);
      Stranded(t, w) <==>
        op.Mutate? && t.store.calls[id].pc.Returned?
        && s.waiters[w].pred(Get(Effect(op, Current(s.store)), s.waiters[w].key))
    // any other call with such a result wakes it
    ensures var s, t := WExec(max, schedule), WExec(max, schedule + more);
      !op.Mutate? && t.store.calls[id].pc.Returned?
      && s.waiters[w].pred(Get(Effect(op, Current(s.store)), s.waiters[w].key))
      ==> w in t.waiters && t.waiters[w].event
  {
    OneCallFacts(max, schedule, more, w, id, op);
    var s, t := WExec(max, schedule), WExec(max, schedule + more);
    if Stranded(t, w) {
      StrandedIffLastingFlip(max, schedule + more, w);
      var p :| LastingFlip(t, t.waiters[w], p);
      StrandedBySelf(max, s, t, w, id, op, p);
    }
    if op.Mutate? {
      MutateIsSilent(max, schedule, more, id, op);
    }
  }

  lemma OneCallFacts(max: int, schedule: seq<WStep>, more: seq<WStep>, w: WaiterId, id: CallId, op: Op)
    requires var s := WExec(max, schedule); Sleeping(s, w) && id !in s.store.calls && AllOf(more, id, op)
    requires var t := WExec(max, schedule + more); id in t.store.calls && Over(t.store.calls[id].pc)
    ensures var s, t := WExec(max, schedule), WExec(max, schedule + more);
      && Inv(max, s.store) && Inv(max, t.store) && MovedBy(s, t, w, id, op) && id !in s.notes
      && (if t.store.calls[id].pc.Returned? then Current(t.store) == Effect(op, Current(s.store))
          else |t.store.log| == |s.store.log|)
  {
    var s, t := WExec(max, schedule), WExec(max, schedule + more);
    WExecKeepsInv(max, schedule);
    WExecKeepsInv(max, schedule + more);
    CallMoves(max, schedule, more, w, id, op);
    AloneTakesEffect(max, s, t, w, id, op);
    assert id in s.notes ==> NoteOk(s, id);
  }

  /** A flip from before the call, lasting until now, was already there when the call began. */
  lemma OlderFlip(max: int, s: World, t: World, w: WaiterId, id: CallId, op: Op, p: nat)
    requires Inv(max, s.store) && Inv(max, t.store) && MovedBy(s, t, w, id, op)
    requires Sleeping(s, w) && Quiet(s) && Sleeping(t, w) && LastingFlip(t, t.waiters[w], p) && p < |s.store.log|
    ensures Stranded(s, w)
  {
    var n := |s.store.log|;
    assert t.store.heap[t.store.hist[n]] == Current(s.store);
    assert TrueAt(t.store, t.waiters[w], n);
  }

  lemma StrandedBySelf(max: int, s: World, t: World, w: WaiterId, id: CallId, op: Op, p: nat)
    requires Inv(max, s.store) && Inv(max, t.store) && MovedBy(s, t, w, id, op)
    requires Sleeping(s, w) && Quiet(s) && !Stranded(s, w) && Sleeping(t, w) && LastingFlip(t, t.waiters[w], p)
    ensures p == |s.store.log| && op.Mutate? && |t.store.log| > |s.store.log|
  {
    var n := |s.store.log|;
    if p < n {
      OlderFlip(max, s, t, w, id, op, p);
    } else {
      assert t.store.log[p] == Commit(id, op) && t.store.log[n] == Commit(id, op);
      CommitsOnce(t.store, n, p);
    }
  }
}
