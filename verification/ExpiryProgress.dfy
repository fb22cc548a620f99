/**
 The expiry thread left to itself: what is due is deleted, not only never twice.
 The thread takes its own next step again and again while nobody calls and the
 clock stands.
 */
module ExpiryProgress {
  import opened Values
  import opened Expiry
  import opened SchedulerProtocol
  import opened ExpiryRace

  /** The thread's own next step. */
  function OwnStep(pc: Pc): Step {
    match pc
    case Asleep(_) => WakeUp
    case Firing(_, _) => Fire
    case _ => Pass
  }

  ghost function Next(r: Run): Run {
    Do(r, OwnStep(r.pc))
  }

  ghost function OwnSteps(r: Run, n: nat): seq<Step>
    decreases n
  {
    if n == 0 then [] else [OwnStep(r.pc)] + OwnSteps(Next(r), n - 1)
  }

  ghost function Alone(r: Run, n: nat): Run
    decreases n
  {
    if n == 0 then r else Alone(Next(r), n - 1)
  }

  lemma Prepend(steps: seq<Step>, step: Step, more: seq<Step>)
    ensures steps + ([step] + more) == (steps + [step]) + more
  {}

  /** Leaving the thread to itself goes on with the run by those steps. */
  lemma {:induction false} AloneIsARun(steps: seq<Step>, r: Run, n: nat)
    requires r == Exec(steps)
    ensures Exec(steps + OwnSteps(r, n)) == Alone(r, n)
    decreases n
  {
    if n == 0 {
      assert steps + [] == steps;
    } else {
      ExecSnoc(steps, OwnStep(r.pc));
      AloneIsARun(steps + [OwnStep(r.pc)], Next(r), n - 1);
      Prepend(steps, OwnStep(r.pc), OwnSteps(Next(r), n - 1));
    }
  }

  lemma {:induction false} AloneGrows(r: Run, n: nat)
    ensures r.trace <= Alone(r, n).trace
    decreases n
  {
    if n > 0 {
      DoGrows(r, OwnStep(r.pc));
      AloneGrows(Next(r), n - 1);
    }
  }

  ghost predicate Good(r: Run) {
    SleepsRight(r) && Ok(r.s) && (r.pc.Exited? ==> r.s.stop)
  }

  lemma {:induction false} AlwaysGood(steps: seq<Step>)
    ensures Good(Exec(steps))
  {
    AlwaysSleepsRight(steps);
    if steps != [] { AlwaysGood(steps[..|steps| - 1]); }
  }

  lemma FireHappens(r: Run, n: nat)
    requires r.pc.Firing? && n >= 1
    ensures EvFire(r.pc.key, r.pc.gen) in Alone(r, n).trace
  {
    var t := Do(r, Fire);
    assert t.trace[|r.trace|] == EvFire(r.pc.key, r.pc.gen);
    AloneGrows(t, n - 1);
    assert Alone(r, n).trace[|r.trace|] == t.trace[|r.trace|];
  }

  /** `e` is due and counts, and the thread has not been stopped. */
  ghost predicate Owes(r: Run, e: Entry) {
    Good(r) && !r.s.stop && e in r.s.pending && IsCurrent(r.s, e) && e.when <= r.clock
  }

  /** The steps it may take until `e` is deleted: two for each entry, and one to begin with. */
  ghost function Budget(r: Run): nat {
    2 * |r.s.pending| + if r.pc.Running? then 0 else 1
  }

  /** The next own step uses up budget and leaves `e` owed, or at hand. */
  lemma OwnStepServes(r: Run, e: Entry)
    requires Owes(r, e)
    ensures Budget(r) >= 2 && Budget(Next(r)) < Budget(r)
    ensures Owes(Next(r), e) || Next(r).pc == Firing(e.key, e.gen)
  {
    assert Leq(First(r.s), e);
    assert r.s.pending - {First(r.s)} + {First(r.s)} == r.s.pending;
  }

  /** One step on, and what comes of the run from there comes of it from here. */
  lemma OneStepOn(r: Run, e: Entry, n: nat) returns (t: Run)
    requires Owes(r, e) && n >= Budget(r)
    ensures n >= 2 && n - 1 >= Budget(t) && (Owes(t, e) || t.pc == Firing(e.key, e.gen))
    ensures EvFire(e.key, e.gen) in Alone(t, n - 1).trace ==> EvFire(e.key, e.gen) in Alone(r, n).trace
  {
    OwnStepServes(r, e);
    t := Next(r);
    assert Alone(r, n) == Alone(t, n - 1);
  }

  lemma {:induction false} DueFires(r: Run, e: Entry, n: nat)
    requires Owes(r, e) && n >= Budget(r)
    ensures EvFire(e.key, e.gen) in Alone(r, n).trace
    decreases n
  {
    var t := OneStepOn(r, e, n);
    if Owes(t, e) { DueFires(t, e, n - 1); } else { FireHappens(t, n - 1); }
  }

  /** Every `schedule` is still pending or has been popped. */
  ghost predicate NoneLost(r: Run) {
    forall k, w, g :: EvSchedule(k, w, g) in r.trace ==> Entry(w, k, g) in r.s.pending || WasPopped(r.trace, k, g)
  }

  lemma PoppedStays(trace: seq<Ev>, ev: Ev, k: Key, g: nat)
    requires WasPopped(trace, k, g) || (ev.EvPop? && ev.key == k && ev.gen == g)
    ensures WasPopped(trace + [ev], k, g)
  {
    if WasPopped(trace, k, g) {
      var e :| e in trace && e.EvPop? && e.key == k && e.gen == g;
      assert e in trace + [ev];
    } else {
      assert ev in trace + [ev];
    }
  }

  lemma DoKeepsNoneLost(r: Run, step: Step)
    requires NoneLost(r)
    ensures NoneLost(Do(r, step))
  {
    var t := Do(r, step);
    if t.trace != r.trace {
      var ev := t.trace[|r.trace|];
      assert t.trace == r.trace + [ev];
      forall k, w, g | EvSchedule(k, w, g) in t.trace ensures Entry(w, k, g) in t.s.pending || WasPopped(t.trace, k, g) {
        if ev != EvSchedule(k, w, g) && Entry(w, k, g) !in t.s.pending { PoppedStays(r.trace, ev, k, g); }
      }
    }
  }

  lemma {:induction false} AlwaysNoneLost(steps: seq<Step>)
    ensures NoneLost(Exec(steps))
  {
    if steps != [] {
      AlwaysNoneLost(steps[..|steps| - 1]);
      DoKeepsNoneLost(Exec(steps[..|steps| - 1]), steps[|steps| - 1]);
    }
  }

  /** A `schedule` whose key nobody has touched since was popped current, if it was popped. */
  lemma PoppedUndisturbed(trace: seq<Ev>, i: nat)
    requires EventsOk(trace) && i < |trace| && trace[i].EvSchedule?
    requires Undisturbed(trace, i, |trace|, trace[i].key) && WasPopped(trace, trace[i].key, trace[i].gen)
    ensures PoppedCurrent(trace, trace[i].key, trace[i].gen)
  {
    var ev :| ev in trace && ev.EvPop? && ev.key == trace[i].key && ev.gen == trace[i].gen;
    var p :| 0 <= p < |trace| && trace[p] == ev;
    var j := ScheduleOfPop(trace, p);
    if i < j { SchedulesDiffer(trace, i, j); }
    if j < i { SchedulesDiffer(trace, j, i); }
  }

  /** So it still counts. */
  lemma UndisturbedIsCurrent(r: Run, i: nat)
    requires TraceInv(r) && i < |r.trace| && r.trace[i].EvSchedule?
    requires Undisturbed(r.trace, i, |r.trace|, r.trace[i].key)
    ensures IsCurrent(r.s, Entry(r.trace[i].when, r.trace[i].key, r.trace[i].gen))
  {
    var k := r.trace[i].key;
    GenerationCounts(r.trace, i);
    CountGrows(r.trace, i + 1, |r.trace|, k);
    assert r.trace[..|r.trace|] == r.trace;
    assert CountBumps(r.trace, k) == if k in r.s.gen then r.s.gen[k] else 0;
  }

  lemma ScheduledFires(r: Run, i: nat, n: nat)
    requires Good(r) && TraceInv(r) && NoneLost(r) && AllFired(r) && EvStop !in r.trace
    requires i < |r.trace| && r.trace[i].EvSchedule? && r.trace[i].when <= r.clock
    requires Undisturbed(r.trace, i, |r.trace|, r.trace[i].key)
    requires n >= 2 * |r.s.pending| + 1
    ensures EvFire(r.trace[i].key, r.trace[i].gen) in Alone(r, n).trace
  {
    var k, w, g := r.trace[i].key, r.trace[i].when, r.trace[i].gen;
    var e := Entry(w, k, g);
    assert EvSchedule(k, w, g) in r.trace;
    if e in r.s.pending {
      UndisturbedIsCurrent(r, i);
      DueFires(r, e, n);
    } else {
      PoppedUndisturbed(r.trace, i);
      if EvFire(k, g) in r.trace { AloneGrows(r, n); } else { FireHappens(r, n); }
    }
  }

  /**
   A key scheduled and left alone since is deleted once its deadline has come,
   unless the thread was stopped: the thread's own next steps, no more than two
   for each pending entry and one, get there. With AtMostOneFirePerSchedule,
   exactly once.
   */
  lemma {:induction false} FiresAtLeastOnce(steps: seq<Step>, i: nat, n: nat)
    requires var r := Exec(steps);
      && i < |r.trace| && r.trace[i].EvSchedule? && r.trace[i].when <= r.clock
      && EvStop !in r.trace && Undisturbed(r.trace, i, |r.trace|, r.trace[i].key)
      && n >= 2 * |r.s.pending| + 1
    ensures var r := Exec(steps);
      EvFire(r.trace[i].key, r.trace[i].gen) in Exec(steps + OwnSteps(r, n)).trace
  {
    AlwaysGood(steps);
    AlwaysTraceInv(steps);
    AlwaysNoneLost(steps);
    AlwaysAllFired(steps);
    ScheduledFires(Exec(steps), i, n);
    AloneIsARun(steps, Exec(steps), n);
  }

  lemma StoppedLeaves(r: Run, n: nat)
    requires r.s.stop && !r.pc.Asleep? && n >= 2
    ensures Alone(r, n).pc == Exited && |Alone(r, n).trace| <= |r.trace| + 1
  {
    var t := Next(r);
    var u := Next(t);
    assert Alone(r, n) == Alone(t, n - 1) == Alone(u, n - 2);
    StaysOut(u, n - 2);
  }

  lemma {:induction false} StaysOut(r: Run, n: nat)
    requires r.pc.Exited?
    ensures Alone(r, n) == r
    decreases n
  {
    if n > 0 { StaysOut(r, n - 1); }
  }

  /** After `stop` two steps of its own take the thread out for good, with no more than the one delete at hand. */
  lemma StopEnds(steps: seq<Step>, n: nat)
    requires n >= 2
    ensures var r := Exec(steps + [Stop]);
      var t := Exec(steps + [Stop] + OwnSteps(r, n));
      t.pc == Exited && |t.trace| <= |r.trace| + 1
  {
    ExecSnoc(steps, Stop);
    AlwaysSleepsRight(steps + [Stop]);
    StoppedLeaves(Exec(steps + [Stop]), n);
    AloneIsARun(steps + [Stop], Exec(steps + [Stop]), n);
  }
}
