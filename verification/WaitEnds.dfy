/** How a `wait_for` ends, from wherever it is, by its own steps alone. */
module WaitEnds {
  import opened Values
  import opened CasStore
  import opened Registry
  import opened WaitFor
  import opened NoLostWakeup
  import opened SilentWrites
  import opened StaleNews

  /** Only waiter `w` has moved, and the registry with it: it is over and has left no callback in any list. */
  ghost predicate Ended(s: World, t: World, w: WaiterId, outcome: Outcome) {
    && t.store == s.store && t.notes == s.notes
    && w in s.waiters && w in t.waiters && t.waiters[w].pc == Gone(outcome)
    && t.waiters.Keys == s.waiters.Keys && (forall v :: v in s.waiters && v != w ==> t.waiters[v] == s.waiters[v])
    && (forall slot, x :: x in Listed(t.reg, slot) ==> x.callback != Check(w))
    && (forall slot: Slot, x: Sub :: x.callback != Check(w) ==> (x in Listed(t.reg, slot) <==> x in Listed(s.reg, slot)))
  }

  /** Once the waiter goes, its one callback goes with it. */
  lemma LeavingTakesItsCallback(s: World, w: WaiterId, slot: Slot, x: Sub)
    requires Tidy(s) && WaiterIds(s, w) && s.waiters[w].pc.Leaving?
    ensures var t := DoAdvance(s, w, s.waiters[w]);
      x in Listed(t.reg, slot) <==> x in Listed(s.reg, slot) && x.callback != Check(w)
  {
    RemoveExactly(s.reg, Some(s.waiters[w].key), s.waiters[w].sub, slot, x);
    if x in Listed(s.reg, slot) && x.callback == Check(w) { assert Owned(s, slot, x); }
    if x in Listed(s.reg, slot) && slot == Some(s.waiters[w].key) && x.id == s.waiters[w].sub {
      IdsTell(s.reg, slot, x, Sub(s.waiters[w].sub, Check(w)));
    }
  }

  /** The waiter's handle is in its key's list, and ids tell subscriptions apart. */
  ghost predicate WaiterIds(s: World, w: WaiterId) {
    && w in s.waiters && Registry.Ok(s.reg)
    && Sub(s.waiters[w].sub, Check(w)) in Listed(s.reg, Some(s.waiters[w].key))
  }

  /** Of all callbacks exactly the waiter's own have gone. */
  ghost predicate OwnCallbackGone(r: Reg, r': Reg, w: WaiterId) {
    forall slot: Slot, x: Sub :: x in Listed(r', slot) <==> x in Listed(r, slot) && x.callback != Check(w)
  }

  lemma LeavingTakesItsCallbacks(s: World, w: WaiterId)
    requires Tidy(s) && WaiterIds(s, w) && s.waiters[w].pc.Leaving?
    ensures OwnCallbackGone(s.reg, DoAdvance(s, w, s.waiters[w]).reg, w)
  {
    forall slot, x
      ensures x in Listed(DoAdvance(s, w, s.waiters[w]).reg, slot) <==> x in Listed(s.reg, slot) && x.callback != Check(w)
    {
      LeavingTakesItsCallback(s, w, slot, x);
    }
  }

  lemma GoneIsEnded(s: World, w: WaiterId)
    requires w in s.waiters && s.waiters[w].pc.Leaving?
    requires OwnCallbackGone(s.reg, DoAdvance(s, w, s.waiters[w]).reg, w)
    ensures Ended(s, DoAdvance(s, w, s.waiters[w]), w, s.waiters[w].pc.outcome)
  {}

  lemma LeavingIsOver(s: World, w: WaiterId)
    requires Tidy(s) && WaiterIds(s, w) && s.waiters[w].pc.Leaving?
    ensures Ended(s, DoAdvance(s, w, s.waiters[w]), w, s.waiters[w].pc.outcome)
  {
    LeavingTakesItsCallbacks(s, w);
    GoneIsEnded(s, w);
  }

  lemma Facts(max: int, schedule: seq<WStep>, s: World, w: WaiterId)
    requires s == WExec(max, schedule) && w in s.waiters
    ensures Tidy(s) && ResultOk(s.waiters[w]) && (Subscribed(s.waiters[w].pc) ==> WaiterIds(s, w))
  {
    WExecKeepsInv(max, schedule);
    AlwaysTidy(max, schedule);
    assert WaiterOk(s, w);
  }

  /** Moving on within the call keeps what the last step needs. */
  lemma StillTidy(s: World, w: WaiterId, me: Waiter)
    requires Tidy(s) && WaiterIds(s, w) && Subscribed(me.pc)
    requires me.key == s.waiters[w].key && me.sub == s.waiters[w].sub
    ensures var t := s.(waiters := s.waiters[w := me]); Tidy(t) && WaiterIds(t, w)
  {
    var t := s.(waiters := s.waiters[w := me]);
    forall slot, x | x in Listed(t.reg, slot) && x.callback.Check? ensures Owned(t, slot, x) {
      assert Owned(s, slot, x);
    }
  }

  lemma OverFromThere(s: World, w: WaiterId, me: Waiter, t: World, outcome: Outcome)
    requires w in s.waiters && Ended(s.(waiters := s.waiters[w := me]), t, w, outcome)
    ensures Ended(s, t, w, outcome)
  {}

  /**
   From any reachable state a timeout ends a waiter whose event is not set: two
   steps later it is over with TimeoutError, unsubscribed, and nothing else has
   moved.
   */
  lemma {:induction false} TimeoutEndsTheWait(max: int, schedule: seq<WStep>, s: World, w: WaiterId)
    requires s == WExec(max, schedule) && w in s.waiters && s.waiters[w].pc.Parked? && !s.waiters[w].event
    ensures Ended(s, WDo(max, WDo(max, s, Timeout(w)), Advance(w)), w, TimedOut)
    ensures WExec(max, schedule + [Timeout(w)] + [Advance(w)]) == WDo(max, WDo(max, s, Timeout(w)), Advance(w))
  {
    Facts(max, schedule, s, w);
    var me := s.waiters[w].(pc := Leaving(TimedOut));
    assert WDo(max, s, Timeout(w)) == s.(waiters := s.waiters[w := me]);
    StillTidy(s, w, me);
    LeavingIsOver(s.(waiters := s.waiters[w := me]), w);
    OverFromThere(s, w, me, WDo(max, WDo(max, s, Timeout(w)), Advance(w)), TimedOut);
    WExecSnoc(max, schedule, Timeout(w));
    WExecSnoc(max, schedule + [Timeout(w)], Advance(w));
  }

  /** What the waiter is when it wakes up and has its value. */
  function Satisfied(me: Waiter): Waiter {
    me.(pc := Leaving(Got(me.result, me.heard)))
  }

  lemma WakesAndLeaves(max: int, s: World, w: WaiterId)
    requires w in s.waiters && s.waiters[w].pc.Parked? && s.waiters[w].event
    ensures WDo(max, WDo(max, s, Advance(w)), Advance(w)) == s.(waiters := s.waiters[w := Satisfied(s.waiters[w])])
  {
    var woken := s.waiters[w].(pc := Woken);
    var s1 := s.(waiters := s.waiters[w := woken]);
    assert WDo(max, s, Advance(w)) == s1;
    assert s1.waiters[w := Satisfied(s.waiters[w])] == s.waiters[w := Satisfied(s.waiters[w])];
  }

  /** Once the event is set a timeout comes too late, and the waiter's own steps return a satisfying value. */
  lemma {:induction false} SetEventEndsTheWait(max: int, schedule: seq<WStep>, s: World, w: WaiterId)
    requires s == WExec(max, schedule) && w in s.waiters && s.waiters[w].pc.Parked? && s.waiters[w].event
    ensures WDo(max, s, Timeout(w)) == s
    ensures s.waiters[w].pred(s.waiters[w].result)
    ensures Ended(s, RunFrom(max, s, Thrice(w)), w, Got(s.waiters[w].result, s.waiters[w].heard))
  {
    Facts(max, schedule, s, w);
    var me := Satisfied(s.waiters[w]);
    ThreeSteps(max, s, w);
    WakesAndLeaves(max, s, w);
    StillTidy(s, w, me);
    LeavingIsOver(s.(waiters := s.waiters[w := me]), w);
    OverFromThere(s, w, me, RunFrom(max, s, Thrice(w)), me.pc.outcome);
  }

  /** A predicate already true at the first check: the value is returned at once and nothing is subscribed. */
  lemma TrueAtOnceReturns(max: int, s: World, w: WaiterId)
    requires w in s.waiters && s.waiters[w].pc.Checking?
    requires s.waiters[w].pred(Get(Current(s.store), s.waiters[w].key))
    ensures var t := WDo(max, s, Advance(w));
      && t.store == s.store && t.reg == s.reg && t.notes == s.notes && w in t.waiters
      && t.waiters[w].pc.Gone? && t.waiters[w].pc.outcome.Got?
      && t.waiters[w].pc.outcome.value == Get(Current(s.store), s.waiters[w].key)
  {}

  /** A predicate found true at the second check: that value is returned, and the callback is gone again. */
  lemma {:induction false} TrueAtRecheckReturns(max: int, schedule: seq<WStep>, s: World, w: WaiterId)
    requires s == WExec(max, schedule) && w in s.waiters && s.waiters[w].pc.Rechecking?
    requires s.waiters[w].pred(Get(Current(s.store), s.waiters[w].key))
    ensures Ended(s, WDo(max, WDo(max, s, Advance(w)), Advance(w)), w,
                 Got(Get(Current(s.store), s.waiters[w].key), |s.store.log|))
  {
    Facts(max, schedule, s, w);
    var me := s.waiters[w].(pc := Leaving(Got(Get(Current(s.store), s.waiters[w].key), |s.store.log|)));
    assert WDo(max, s, Advance(w)) == s.(waiters := s.waiters[w := me]);
    StillTidy(s, w, me);
    LeavingIsOver(s.(waiters := s.waiters[w := me]), w);
    OverFromThere(s, w, me, WDo(max, WDo(max, s, Advance(w)), Advance(w)), me.pc.outcome);
  }

  // ---- the registry is the registry ---------------------------------------------

  /** What a step asks of the registry. */
  ghost function Access(s: World, step: WStep): seq<Registry.Access> {
    match step
    case OtherSubscribe(slot, name) => [Registry.Subscribe(slot, Plain(name))]
    case OtherCancel(slot, id) => if HeldByOthers(s.reg, slot, id) then [Registry.Cancel(slot, id)] else []
    case Advance(w) =>
      if w !in s.waiters then []
      else if s.waiters[w].pc.Subscribing? then [Registry.Subscribe(Some(s.waiters[w].key), Check(w))]
      else if s.waiters[w].pc.Leaving? then [Registry.Cancel(Some(s.waiters[w].key), s.waiters[w].sub)]
      else []
    case _ => []
  }

  ghost function Accesses(max: int, schedule: seq<WStep>): seq<Registry.Access> {
    if schedule == [] then []
    else
      var n := |schedule| - 1;
      Accesses(max, schedule[..n]) + Access(WExec(max, schedule[..n]), schedule[n])
  }

  lemma OneAccess(max: int, s: World, step: WStep, run: seq<Registry.Access>)
    requires s.reg == Registry.After(run)
    ensures WDo(max, s, step).reg == Registry.After(run + Access(s, step))
  {
    if Access(s, step) == [] {
      assert run + [] == run;
    } else {
      assert (run + Access(s, step))[..|run|] == run;
    }
  }

  /** Waiters and other subscribers together drive the registry by a run of `subscribe` and `cancel`. */
  lemma {:induction false} RegistryIsARun(max: int, schedule: seq<WStep>)
    ensures WExec(max, schedule).reg == Registry.After(Accesses(max, schedule))
  {
    if schedule != [] {
      var n := |schedule| - 1;
      RegistryIsARun(max, schedule[..n]);
      OneAccess(max, WExec(max, schedule[..n]), schedule[n], Accesses(max, schedule[..n]));
    }
  }
}
