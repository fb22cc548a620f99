/**
 The race that stays open: an entry once popped is deleted whatever `cancel` or
 `schedule` come in between. The protocol of the expiry thread runs against
 callers that write to the store; each write, and the thread's own delete,
 is one step, the point where it takes effect.
 */
module ExpiryRace {
  import opened Values
  import opened Expiry
  import opened SchedulerProtocol
  import CasStore
  import Deletion

  // ---- only what is already popped can still fire -----------------------------

  /** Every current entry popped has been fired, but for the one at hand. */
  ghost predicate AllFired(r: Run) {
    forall k, g :: PoppedCurrent(r.trace, k, g) && EvFire(k, g) !in r.trace ==> r.pc == Firing(k, g)
  }

  lemma PoppedCurrentSnoc(trace: seq<Ev>, ev: Ev, k: Key, g: nat)
    ensures PoppedCurrent(trace + [ev], k, g) <==>
      PoppedCurrent(trace, k, g) || (ev.EvPop? && ev.key == k && ev.gen == g && ev.current)
  {
    assert forall e :: e in trace + [ev] <==> e in trace || e == ev;
  }

  lemma DoKeepsAllFired(r: Run, step: Step)
    requires AllFired(r)
    ensures AllFired(Do(r, step))
  {
    var r' := Do(r, step);
    forall k, g | PoppedCurrent(r'.trace, k, g) && EvFire(k, g) !in r'.trace ensures r'.pc == Firing(k, g) {
      if r'.trace != r.trace {
        var ev := r'.trace[|r.trace|];
        assert r'.trace == r.trace + [ev];
        PoppedCurrentSnoc(r.trace, ev, k, g);
      }
    }
  }

  lemma {:induction false} AlwaysAllFired(steps: seq<Step>)
    ensures AllFired(Exec(steps))
  {
    if steps != [] {
      AlwaysAllFired(steps[..|steps| - 1]);
      DoKeepsAllFired(Exec(steps[..|steps| - 1]), steps[|steps| - 1]);
    }
  }

  lemma ExecSnoc(steps: seq<Step>, step: Step)
    ensures Exec(steps + [step]) == Do(Exec(steps), step)
  {
    assert (steps + [step])[..|steps|] == steps;
  }

  lemma DoGrows(r: Run, step: Step)
    ensures r.trace <= Do(r, step).trace
  {}

  lemma {:induction false} TraceGrows(steps: seq<Step>, more: seq<Step>)
    ensures Exec(steps).trace <= Exec(steps + more).trace
  {
    if more == [] {
      assert steps + more == steps;
    } else {
      var n := |more| - 1;
      TraceGrows(steps, more[..n]);
      assert steps + more == (steps + more[..n]) + [more[n]];
      ExecSnoc(steps + more[..n], more[n]);
      DoGrows(Exec(steps + more[..n]), more[n]);
    }
  }

  /** A `schedule` or a `cancel` of `key`. */
  predicate Touches(step: Step, key: Key) {
    (step.Schedule? || step.Cancel?) && step.key == key
  }

  /** After `steps`, `touch` and `more`, event j is an expire delete owed to a `schedule` from before the touch. */
  ghost predicate OldExpiry(steps: seq<Step>, touch: Step, key: Key, more: seq<Step>, j: nat) {
    var trace := Exec(steps + [touch] + more).trace;
    && |Exec(steps).trace| <= j < |trace| && trace[j].EvFire? && trace[j].key == key
    && trace[j].gen <= CountBumps(Exec(steps).trace, key)
  }

  /** The first event after `steps` is the touch. */
  lemma TouchIsNext(steps: seq<Step>, touch: Step, key: Key, more: seq<Step>)
    requires Touches(touch, key)
    ensures var past, trace := Exec(steps).trace, Exec(steps + [touch] + more).trace;
      |past| < |trace| && trace[..|past|] == past && Bumps(trace[|past|], key)
  {
    ExecSnoc(steps, touch);
    TraceGrows(steps + [touch], more);
    var past, trace := Exec(steps).trace, Exec(steps + [touch] + more).trace;
    assert Exec(steps + [touch]).trace[|past|] == trace[|past|];
  }

  /** A key touched at event n, with its generation from before: the undisturbed stretch ends before n. */
  lemma PoppedBefore(trace: seq<Ev>, n: nat, i: nat, p: nat)
    requires n < |trace| && i < p < |trace| && trace[i].EvSchedule? && trace[p].EvPop?
    requires CountBumps(trace[..i], trace[i].key) < trace[i].gen <= CountBumps(trace[..n], trace[i].key)
    requires Bumps(trace[n], trace[i].key) && Undisturbed(trace, i, p, trace[i].key)
    ensures p < n
  {
    if i >= n { CountGrows(trace, n, i, trace[i].key); }
  }

  lemma ScheduleIsNew(steps: seq<Step>, i: nat)
    requires i < |Exec(steps).trace| && Exec(steps).trace[i].EvSchedule?
    ensures var trace := Exec(steps).trace; CountBumps(trace[..i], trace[i].key) < trace[i].gen
  {
    AlwaysTraceInv(steps);
    assert EventOk(Exec(steps).trace[..i], Exec(steps).trace[i]);
  }

  /** The pop behind an old expiry came before the touch. */
  lemma OldExpiryWasPopped(steps: seq<Step>, touch: Step, key: Key, more: seq<Step>, j: nat) returns (p: nat)
    requires Touches(touch, key) && OldExpiry(steps, touch, key, more, j)
    ensures var past, trace := Exec(steps).trace, Exec(steps + [touch] + more).trace;
      && |past| <= |trace| && trace[..|past|] == past && p < |past|
      && trace[p].EvPop? && trace[p].current && trace[p].key == key && trace[p].gen == trace[j].gen
  {
    TouchIsNext(steps, touch, key, more);
    var i, q := FireIsEarned(steps + [touch] + more, j);
    p := q;
    ScheduleIsNew(steps + [touch] + more, i);
    PoppedBefore(Exec(steps + [touch] + more).trace, |Exec(steps).trace|, i, p);
  }

  lemma OldExpiryWasAtHand(steps: seq<Step>, touch: Step, key: Key, more: seq<Step>, j: nat)
    requires Touches(touch, key) && OldExpiry(steps, touch, key, more, j)
    ensures Exec(steps).pc.Firing? && Exec(steps).pc.key == key
  {
    var all := steps + [touch] + more;
    var past, trace := Exec(steps).trace, Exec(all).trace;
    var p := OldExpiryWasPopped(steps, touch, key, more, j);
    assert past[p] == trace[p] && past[p] in past;
    if EvFire(key, trace[j].gen) in past {
      var j' :| 0 <= j' < |past| && past[j'] == EvFire(key, trace[j].gen);
      assert trace[j'] == past[j'];
      AtMostOneFirePerSchedule(all, j', j);
    }
    AlwaysAllFired(steps);
  }

  /**
   The exact condition, over every interleaving: after a `cancel` or a new
   `schedule` of a key, an expire delete owed to an earlier `schedule` can still
   happen if and only if it was popped and at hand when the call came.
   */
  lemma OldExpiryIffPopped(steps: seq<Step>, touch: Step, key: Key)
    requires Touches(touch, key)
    ensures (exists more, j :: OldExpiry(steps, touch, key, more, j))
       <==> Exec(steps).pc.Firing? && Exec(steps).pc.key == key
  {
    forall more, j | OldExpiry(steps, touch, key, more, j)
      ensures Exec(steps).pc.Firing? && Exec(steps).pc.key == key
    {
      OldExpiryWasAtHand(steps, touch, key, more, j);
    }
    if Exec(steps).pc.Firing? && Exec(steps).pc.key == key {
      AtHandStillFires(steps, touch, key);
    }
  }

  /** Nothing keeps the thread from the delete at hand. */
  lemma FireAfterTouch(r: Run, touch: Step, key: Key)
    requires Touches(touch, key) && r.pc.Firing?
    ensures var r' := Do(Do(r, touch), Fire);
      |r'.trace| == |r.trace| + 2 && r'.trace[|r.trace| + 1] == EvFire(r.pc.key, r.pc.gen)
  {
    var r1 := Do(r, touch);
    assert r1.pc == r.pc && |r1.trace| == |r.trace| + 1;
  }

  lemma AtHandStillFires(steps: seq<Step>, touch: Step, key: Key)
    requires Touches(touch, key) && Exec(steps).pc.Firing? && Exec(steps).pc.key == key
    ensures OldExpiry(steps, touch, key, [Fire], |Exec(steps).trace| + 1)
  {
    ExecSnoc(steps, touch);
    ExecSnoc(steps + [touch], Fire);
    FireAfterTouch(Exec(steps), touch, key);
    GenerationAtHand(steps);
  }

  lemma PoppedGenerationIsPast(trace: seq<Ev>, key: Key, gen: nat)
    requires EventsOk(trace) && PoppedCurrent(trace, key, gen)
    ensures gen <= CountBumps(trace, key)
  {
    if gen > CountBumps(trace, key) {
      FutureNotPopped(trace, key, gen);
    }
  }

  /** What is about to be deleted was scheduled in the past. */
  lemma GenerationAtHand(steps: seq<Step>)
    requires Exec(steps).pc.Firing?
    ensures var r := Exec(steps); r.pc.gen <= CountBumps(r.trace, r.pc.key)
  {
    AlwaysTraceInv(steps);
    PoppedGenerationIsPast(Exec(steps).trace, Exec(steps).pc.key, Exec(steps).pc.gen);
  }

  predicate SchedulesNo(steps: seq<Step>, key: Key) {
    forall i :: 0 <= i < |steps| && steps[i].Schedule? ==> steps[i].key != key
  }

  lemma {:induction false} NoNewSchedules(steps: seq<Step>, more: seq<Step>, key: Key, j: nat)
    requires SchedulesNo(more, key)
    requires |Exec(steps).trace| <= j < |Exec(steps + more).trace| && Exec(steps + more).trace[j].EvSchedule?
    ensures Exec(steps + more).trace[j].key != key
  {
    assert more == [] ==> steps + more == steps;
    if more != [] {
      var n := |more| - 1;
      assert steps + more == (steps + more[..n]) + [more[n]];
      ExecSnoc(steps + more[..n], more[n]);
      if j < |Exec(steps + more[..n]).trace| {
        DoGrows(Exec(steps + more[..n]), more[n]);
        NoNewSchedules(steps, more[..n], key, j);
      }
    }
  }

  lemma OldGeneration(trace: seq<Ev>, i: nat, n: nat)
    requires EventsOk(trace) && i < n <= |trace| && trace[i].EvSchedule?
    ensures trace[i].gen <= CountBumps(trace[..n], trace[i].key)
  {
    GenerationCounts(trace, i);
    CountGrows(trace, i + 1, n, trace[i].key);
  }

  /** After the `cancel` and with no new `schedule`, all `schedule` events of the key are past ones. */
  lemma ScheduleIsPast(steps: seq<Step>, key: Key, more: seq<Step>, i: nat)
    requires SchedulesNo(more, key)
    requires var trace := Exec(steps + [Cancel(key)] + more).trace; i < |trace| && trace[i].EvSchedule? && trace[i].key == key
    ensures i < |Exec(steps).trace|
  {
    assert steps + [Cancel(key)] + more == steps + ([Cancel(key)] + more);
    if i >= |Exec(steps).trace| { NoNewSchedules(steps, [Cancel(key)] + more, key, i); }
  }

  /** With no new `schedule` after the `cancel`, every expiry of the key is an old one. */
  lemma ExpiryAfterCancelIsOld(steps: seq<Step>, key: Key, more: seq<Step>, j: nat)
    requires SchedulesNo(more, key)
    requires var trace := Exec(steps + [Cancel(key)] + more).trace;
      |Exec(steps).trace| <= j < |trace| && trace[j].EvFire? && trace[j].key == key
    ensures OldExpiry(steps, Cancel(key), key, more, j)
  {
    var all := steps + [Cancel(key)] + more;
    var i, p := FireIsEarned(all, j);
    TouchIsNext(steps, Cancel(key), key, more);
    ScheduleIsPast(steps, key, more, i);
    AlwaysTraceInv(all);
    OldGeneration(Exec(all).trace, i, |Exec(steps).trace|);
  }

  /** What is at hand some time after a `cancel`, with no new `schedule`, was at hand when the `cancel` came. */
  lemma AtHandSinceCancel(steps: seq<Step>, key: Key, more: seq<Step>)
    requires SchedulesNo(more, key)
    requires var pc := Exec(steps + [Cancel(key)] + more).pc; pc.Firing? && pc.key == key
    ensures Exec(steps).pc.Firing? && Exec(steps).pc.key == key
  {
    var r := Exec(steps + [Cancel(key)] + more);
    ExecSnoc(steps + [Cancel(key)] + more, Fire);
    assert steps + [Cancel(key)] + more + [Fire] == steps + [Cancel(key)] + (more + [Fire]);
    TouchIsNext(steps, Cancel(key), key, more);
    ExpiryAfterCancelIsOld(steps, key, more + [Fire], |r.trace|);
    OldExpiryWasAtHand(steps, Cancel(key), key, more + [Fire], |r.trace|);
  }

  // ---- what a caller can see ------------------------------------------------------

  ghost predicate ClockNeverGoesBack(steps: seq<Step>) {
    forall i :: 0 <= i < |steps| && steps[i].Tick? ==> Exec(steps[..i]).clock <= steps[i].now
  }

  /** No pop lies in the future. */
  ghost predicate PopsArePast(r: Run) {
    forall ev :: ev in r.trace && ev.EvPop? ==> ev.now <= r.clock
  }

  lemma StepKeepsPopsPast(r: Run, step: Step)
    requires PopsArePast(r) && (step.Tick? ==> r.clock <= step.now)
    ensures PopsArePast(Do(r, step))
  {
    var r' := Do(r, step);
    forall ev | ev in r'.trace && ev.EvPop? ensures ev.now <= r'.clock {
      assert ev in r.trace || r'.trace[|r.trace|] == ev;
    }
  }

  lemma {:induction false} AlwaysPopsPast(steps: seq<Step>)
    requires ClockNeverGoesBack(steps)
    ensures PopsArePast(Exec(steps))
  {
    if steps != [] {
      var n := |steps| - 1;
      forall i | 0 <= i < n && steps[..n][i].Tick? ensures Exec(steps[..n][..i]).clock <= steps[..n][i].now {
        assert steps[..n][..i] == steps[..i];
      }
      AlwaysPopsPast(steps[..n]);
      StepKeepsPopsPast(Exec(steps[..n]), steps[n]);
    }
  }

  /** Every deadline `key` has been given so far is still to come. */
  ghost predicate AllAhead(r: Run, key: Key) {
    forall ev :: ev in r.trace && ev.EvSchedule? && ev.key == key ==> ev.when > r.clock
  }

  lemma PopIsDue(trace: seq<Ev>, pop: Ev)
    requires EventsOk(trace) && pop in trace && pop.EvPop?
    ensures pop.when <= pop.now && EvSchedule(pop.key, pop.when, pop.gen) in trace
  {
    var p :| 0 <= p < |trace| && trace[p] == pop;
    assert EventOk(trace[..p], trace[p]);
  }

  /** With a forward clock, before its first deadline no expiry of the key is at hand. */
  lemma {:induction false} NothingAtHandBeforeDeadline(steps: seq<Step>, key: Key)
    requires ClockNeverGoesBack(steps) && AllAhead(Exec(steps), key)
    ensures !(Exec(steps).pc.Firing? && Exec(steps).pc.key == key)
  {
    AlwaysPopsPast(steps);
    AlwaysTraceInv(steps);
    var r := Exec(steps);
    if r.pc.Firing? && r.pc.key == key {
      var pop :| pop in r.trace && pop.EvPop? && pop.key == key && pop.gen == r.pc.gen && pop.current;
      PopIsDue(r.trace, pop);
    }
  }

  // ---- what it does to the store -------------------------------------------------

  datatype World = World(run: Run, contents: Contents)

  datatype Act = Expiry(step: Step) | Write(op: CasStore.Op)

  const START := World(Run(IDLE, Running, 0.0, []), map[])

  ghost function Next(w: World, act: Act): World {
    match act
    case Expiry(step) =>
      World(Do(w.run, step),
            if step.Fire? && w.run.pc.Firing? then CasStore.Effect(CasStore.Delete(w.run.pc.key), w.contents) else w.contents)
    case Write(op) => w.(contents := CasStore.Effect(op, w.contents))
  }

  ghost function After(acts: seq<Act>): World {
    if acts == [] then START else Next(After(acts[..|acts| - 1]), acts[|acts| - 1])
  }

  lemma AfterSnoc(acts: seq<Act>, act: Act)
    ensures After(acts + [act]) == Next(After(acts), act)
  {
    assert (acts + [act])[..|acts|] == acts;
  }

  /** The steps the expiry thread and its callers take under the condition variable. */
  function Steps(acts: seq<Act>): seq<Step> {
    if acts == [] then []
    else
      var act := acts[|acts| - 1];
      Steps(acts[..|acts| - 1]) + if act.Expiry? then [act.step] else []
  }

  lemma {:induction false} RunIsExec(acts: seq<Act>)
    ensures After(acts).run == Exec(Steps(acts))
  {
    if acts != [] {
      var n := |acts| - 1;
      RunIsExec(acts[..n]);
      if acts[n].Expiry? {
        ExecSnoc(Steps(acts[..n]), acts[n].step);
      } else {
        assert Steps(acts) == Steps(acts[..n]);
      }
    }
  }

  lemma {:induction false} StepsConcat(a: seq<Act>, b: seq<Act>)
    ensures Steps(a + b) == Steps(a) + Steps(b)
  {
    if b == [] {
      assert a + b == a;
    } else {
      var n := |b| - 1;
      StepsConcat(a, b[..n]);
      assert (a + b)[..|a| + n] == a + b[..n];
    }
  }

  ghost predicate NeverSchedules(acts: seq<Act>, key: Key) {
    forall i :: 0 <= i < |acts| && acts[i].Expiry? && acts[i].step.Schedule? ==> acts[i].step.key != key
  }

  ghost predicate WritersKeep(acts: seq<Act>, from: nat, key: Key) {
    forall i :: from <= i < |acts| && acts[i].Write? ==> Deletion.Keeps(acts[i].op, key)
  }

  /** What the store holds after `acts`, a `cancel` of `key`, and `more`. */
  ghost function Then(acts: seq<Act>, key: Key, more: seq<Act>): World {
    After(acts + [Expiry(Cancel(key))] + more)
  }

  /**
   After the `cancel` nobody schedules the key again; after `m` further acts it
   has a value, which no writer takes out; and yet it goes.
   */
  ghost predicate LosesValue(acts: seq<Act>, key: Key, more: seq<Act>, m: nat) {
    && m <= |more| && NeverSchedules(more, key) && WritersKeep(more, m, key)
    && key in Then(acts, key, more[..m]).contents
    && key !in Then(acts, key, more).contents
  }

  lemma ThenSnoc(acts: seq<Act>, key: Key, more: seq<Act>, n: nat)
    requires n < |more|
    ensures Then(acts, key, more[..n + 1]) == Next(Then(acts, key, more[..n]), more[n])
  {
    assert acts + [Expiry(Cancel(key))] + more[..n + 1] == (acts + [Expiry(Cancel(key))] + more[..n]) + [more[n]];
    AfterSnoc(acts + [Expiry(Cancel(key))] + more[..n], more[n]);
  }

  /** What goes without a writer taking it goes by an expire delete. */
  lemma {:induction false} SomeFireTookIt(acts: seq<Act>, key: Key, more: seq<Act>, m: nat, end: nat) returns (n: nat)
    requires m <= end <= |more| && WritersKeep(more, m, key)
    requires key in Then(acts, key, more[..m]).contents && key !in Then(acts, key, more[..end]).contents
    ensures m <= n < end && more[n] == Expiry(Fire)
    ensures var pc := Then(acts, key, more[..n]).run.pc; pc.Firing? && pc.key == key
    decreases end
  {
    if key in Then(acts, key, more[..end - 1]).contents {
      n := end - 1;
      ThenSnoc(acts, key, more, n);
      if more[n].Write? { assert Deletion.Keeps(more[n].op, key); }
    } else {
      n := SomeFireTookIt(acts, key, more, m, end - 1);
    }
  }

  lemma {:induction false} StepsScheduleNo(acts: seq<Act>, key: Key)
    requires NeverSchedules(acts, key)
    ensures SchedulesNo(Steps(acts), key)
  {
    if acts != [] {
      StepsScheduleNo(acts[..|acts| - 1], key);
    }
  }

  lemma ThenIsExec(acts: seq<Act>, key: Key, more: seq<Act>)
    ensures Then(acts, key, more).run == Exec(Steps(acts) + [Cancel(key)] + Steps(more))
  {
    var cancel := [Expiry(Cancel(key))];
    StepsConcat(acts + cancel, more);
    StepsConcat(acts, cancel);
    assert cancel[..0] == [];
    assert Steps(cancel) == Steps([]) + [Cancel(key)];
    assert Steps(cancel) == [Cancel(key)];
    RunIsExec(acts + cancel + more);
  }

  /**
   When a manual delete is safe from a later expiry: a value that the key has
   after a `cancel`, kept by all writers and never scheduled, can still be
   lost if and only if an expiry of the key was at hand when the `cancel` came.
   */
  lemma ValueLostIffPopped(acts: seq<Act>, key: Key)
    ensures (exists more, m :: LosesValue(acts, key, more, m))
       <==> After(acts).run.pc.Firing? && After(acts).run.pc.key == key
  {
    forall more, m | LosesValue(acts, key, more, m)
      ensures After(acts).run.pc.Firing? && After(acts).run.pc.key == key
    {
      assert more[..|more|] == more;
      var n := SomeFireTookIt(acts, key, more, m, |more|);
      ThenIsExec(acts, key, more[..n]);
      StepsScheduleNo(more[..n], key);
      AtHandSinceCancel(Steps(acts), key, Steps(more[..n]));
      RunIsExec(acts);
    }
    if After(acts).run.pc.Firing? && After(acts).run.pc.key == key {
      LateFireTakesNewValue(acts, key);
    }
  }

  /**
   What a caller can rely on: if the clock has not gone back and every deadline
   the key ever had is still to come at the `cancel`, no expiry can take a later
   value.
   */
  lemma {:induction false} CancelInTimeIsSafe(acts: seq<Act>, key: Key, more: seq<Act>, m: nat)
    requires ClockNeverGoesBack(Steps(acts)) && AllAhead(After(acts).run, key)
    ensures !LosesValue(acts, key, more, m)
  {
    RunIsExec(acts);
    NothingAtHandBeforeDeadline(Steps(acts), key);
    ValueLostIffPopped(acts, key);
  }

  /** Written after the `cancel`, gone with the delete at hand. */
  lemma LateFireTakesNewValue(acts: seq<Act>, key: Key)
    requires After(acts).run.pc.Firing? && After(acts).run.pc.key == key
    ensures LosesValue(acts, key, [Write(CasStore.Set(key, Null)), Expiry(Fire)], 1)
  {
    var more := [Write(CasStore.Set(key, Null)), Expiry(Fire)];
    AfterSnoc(acts, Expiry(Cancel(key)));
    assert acts + [Expiry(Cancel(key))] + more[..0] == acts + [Expiry(Cancel(key))];
    ThenSnoc(acts, key, more, 0);
    ThenSnoc(acts, key, more, 1);
    assert more[..2] == more;
  }

  // ---- two runs -----------------------------------------------------------------

  /** `set("a", None, ttl)`, and its deadline comes. */
  const POPPED: seq<Act> := [
    Write(CasStore.Set("a", Null)), Expiry(Schedule("a", 1.0)), Expiry(Tick(1.0)), Expiry(Pass)]

  lemma PoppedIsAtHand()
    ensures var w := After(POPPED);
      && w.run.pc == Firing("a", 1) && w.run.clock == 1.0 && w.run.s.gen == map["a" := 1] && "a" in w.contents
  {
    assert POPPED[..0] == [] && POPPED[..4] == POPPED;
    AfterSnoc(POPPED[..0], POPPED[0]);
    AfterSnoc(POPPED[..1], POPPED[1]);
    AfterSnoc(POPPED[..2], POPPED[2]);
    AfterSnoc(POPPED[..3], POPPED[3]);
    assert POPPED[..1] == POPPED[..0] + [POPPED[0]] && POPPED[..2] == POPPED[..1] + [POPPED[1]];
    assert POPPED[..3] == POPPED[..2] + [POPPED[2]] && POPPED == POPPED[..3] + [POPPED[3]];
    assert After(POPPED[..3]).run.s.pending == {Entry(1.0, "a", 1)};
    assert First(After(POPPED[..3]).run.s) in After(POPPED[..3]).run.s.pending;
  }

  /** The manual `delete("a")`, then `set("a", 7)` for good. */
  const DELETE_AND_SET: seq<Act> := [
    Expiry(Cancel("a")), Write(CasStore.Delete("a")),
    Write(CasStore.Set("a", Obj(7))), Expiry(Cancel("a"))]

  /** A manual delete does race with the expiry that was popped before it: the value set after it is deleted. */
  lemma PoppedExpiryOutrunsDelete()
    ensures Lookup(After(POPPED + DELETE_AND_SET).contents, "a") == Some(Obj(7))
    ensures Lookup(After(POPPED + DELETE_AND_SET + [Expiry(Fire)]).contents, "a") == None
  {
    PoppedIsAtHand();
    var d := DELETE_AND_SET;
    AfterSnoc(POPPED, d[0]);
    AfterSnoc(POPPED + [d[0]], d[1]);
    AfterSnoc(POPPED + [d[0]] + [d[1]], d[2]);
    AfterSnoc(POPPED + [d[0]] + [d[1]] + [d[2]], d[3]);
    assert POPPED + d == POPPED + [d[0]] + [d[1]] + [d[2]] + [d[3]];
    AfterSnoc(POPPED + d, Expiry(Fire));
  }

  /** `set("a", 7, ttl)` with a later deadline. */
  const SET_AGAIN: seq<Act> := [Write(CasStore.Set("a", Obj(7))), Expiry(Schedule("a", 9.0))]

  /** A popped expiry also deletes a value whose own deadline, 9.0, is still to come at 1.0. */
  lemma PoppedExpiryOutrunsReschedule()
    ensures Lookup(After(POPPED + SET_AGAIN).contents, "a") == Some(Obj(7))
    ensures var w := After(POPPED + SET_AGAIN + [Expiry(Fire)]);
      Lookup(w.contents, "a") == None && w.run.clock == 1.0 && Due(w.run.s, "a", 9.0)
  {
    PoppedIsAtHand();
    AfterSnoc(POPPED, SET_AGAIN[0]);
    AfterSnoc(POPPED + [SET_AGAIN[0]], SET_AGAIN[1]);
    assert POPPED + SET_AGAIN == POPPED + [SET_AGAIN[0]] + [SET_AGAIN[1]];
    AfterSnoc(POPPED + SET_AGAIN, Expiry(Fire));
  }
}
