/**
 The expiry thread against its callers: every section under the condition
 variable is one step, the delete that follows a pop is another, and the clock
 moves as it likes in between. A step that is not possible changes nothing, so
 a run is any sequence of steps.
 */
module SchedulerProtocol {
  import opened Values
  import opened Expiry

  /** What happened, in order. */
  datatype Ev =
    | EvSchedule(key: Key, when: Time, gen: nat)
    | EvCancel(key: Key)
    | EvStop
    | EvPop(key: Key, gen: nat, when: Time, now: Time, current: bool)
    | EvFire(key: Key, gen: nat)          // the `store.delete(key, _event="expire")`

  datatype Pc =
    | Running                             // about to take the lock
    | Asleep(until: Option<Time>)         // in `_cv.wait`, untimed or until a time
    | Firing(key: Key, gen: nat)          // popped a current entry, delete still to come
    | Exited

  datatype Run = Run(s: Sched, pc: Pc, clock: Time, trace: seq<Ev>)

  datatype Step =
    | Schedule(key: Key, when: Time)
    | Cancel(key: Key)
    | Stop
    | Pass                                // the loop's section under the lock
    | WakeUp                              // the wait times out
    | Fire
    | Tick(now: Time)

  /** `_cv.notify()`: the scheduler is the only thread that waits. */
  function Notified(pc: Pc): Pc {
    if pc.Asleep? then Running else pc
  }

  function AfterPop(r: Run, e: Entry): Run {
    Run(Popped(r.s, e), if IsCurrent(r.s, e) then Firing(e.key, e.gen) else Running, r.clock,
        r.trace + [EvPop(e.key, e.gen, e.when, r.clock, IsCurrent(r.s, e))])
  }

  ghost function DoPass(r: Run): Run {
    if !r.pc.Running? then r
    else if r.s.stop then r.(pc := Exited)
    else if r.s.pending == {} then r.(pc := Asleep(None))
    else
      var e := First(r.s);
      if e.when > r.clock then r.(pc := Asleep(Some(e.when)))
      else AfterPop(r, e)
  }

  ghost function Do(r: Run, step: Step): Run {
    match step
    case Schedule(k, w) =>
      Run(Scheduled(r.s, k, w), Notified(r.pc), r.clock, r.trace + [EvSchedule(k, w, NextGen(r.s, k))])
    case Cancel(k) => Run(Cancelled(r.s, k), Notified(r.pc), r.clock, r.trace + [EvCancel(k)])
    case Stop => Run(r.s.(stop := true), Notified(r.pc), r.clock, r.trace + [EvStop])
    case Pass => DoPass(r)
    case WakeUp => if r.pc.Asleep? && r.pc.until.Some? && r.clock >= r.pc.until.value then r.(pc := Running) else r
    case Fire =>
      if r.pc.Firing? then r.(pc := Running, trace := r.trace + [EvFire(r.pc.key, r.pc.gen)]) else r
    case Tick(now) => r.(clock := now)
  }

  ghost function Exec(steps: seq<Step>): Run {
    if steps == [] then Run(IDLE, Running, 0.0, [])
    else Do(Exec(steps[..|steps| - 1]), steps[|steps| - 1])
  }

  // ---- sleeping --------------------------------------------------------------

  ghost predicate SleepsRight(r: Run) {
    r.pc.Asleep? ==>
      && !r.s.stop
      && match r.pc.until
         case None => r.s.pending == {}
         case Some(t) => r.s.pending != {} && First(r.s).when == t
  }

  lemma {:induction false} AlwaysSleepsRight(steps: seq<Step>)
    ensures SleepsRight(Exec(steps)) && Ok(Exec(steps).s)
  {
    if steps != [] {
      AlwaysSleepsRight(steps[..|steps| - 1]);
      var r := Exec(steps[..|steps| - 1]);
      match steps[|steps| - 1]
      case Schedule(k, w) => ScheduleOk(r.s, k, w);
      case _ =>
    }
  }

  /** Blocked means: not stopped, and either nothing is pending and the wait is untimed, or it ends at the earliest `when`. */
  lemma NeverOversleeps(steps: seq<Step>)
    requires Exec(steps).pc.Asleep?
    ensures var r := Exec(steps);
      && !r.s.stop
      && (r.pc.until.None? <==> r.s.pending == {})
      && (r.pc.until.Some? ==>
            && (exists e :: e in r.s.pending && e.when == r.pc.until.value)
            && (forall e :: e in r.s.pending ==> r.pc.until.value <= e.when)
            // once something is due, the wait can only end
            && ((exists e :: e in r.s.pending && e.when <= r.clock) ==> Do(r, WakeUp).pc == Running))
  {
    AlwaysSleepsRight(steps);
    var r := Exec(steps);
    if r.pc.until.Some? {
      assert First(r.s) in r.s.pending;
    }
  }

  // ---- what the trace says ---------------------------------------------------

  predicate Bumps(ev: Ev, key: Key) {
    (ev.EvSchedule? || ev.EvCancel?) && ev.key == key
  }

  /** How often `schedule` or `cancel` was called for `key`. */
  function CountBumps(trace: seq<Ev>, key: Key): nat {
    if trace == [] then 0
    else CountBumps(trace[..|trace| - 1], key) + if Bumps(trace[|trace| - 1], key) then 1 else 0
  }

  ghost predicate WasPopped(trace: seq<Ev>, key: Key, gen: nat) {
    exists ev :: ev in trace && ev.EvPop? && ev.key == key && ev.gen == gen
  }

  ghost predicate PoppedCurrent(trace: seq<Ev>, key: Key, gen: nat) {
    exists ev :: ev in trace && ev.EvPop? && ev.key == key && ev.gen == gen && ev.current
  }

  /** What each event owes to the events before it. */
  ghost predicate EventOk(past: seq<Ev>, ev: Ev) {
    match ev
    case EvSchedule(k, w, g) => g == CountBumps(past, k) + 1
    case EvPop(k, g, w, now, current) =>
      && EvSchedule(k, w, g) in past && w <= now
      && (current <==> CountBumps(past, k) == g)
      && !WasPopped(past, k, g)
      && EvStop !in past
    case EvFire(k, g) => PoppedCurrent(past, k, g) && ev !in past
    case _ => true
  }

  ghost predicate EventsOk(trace: seq<Ev>) {
    forall j :: 0 <= j < |trace| ==> EventOk(trace[..j], trace[j])
  }

  /** Expire deletes that came after a `stop`. */
  function LateFires(trace: seq<Ev>): nat {
    if trace == [] then 0
    else
      var past := trace[..|trace| - 1];
      LateFires(past) + if EvStop in past && trace[|trace| - 1].EvFire? then 1 else 0
  }

  /** A key's generation is how often it has been touched. */
  ghost predicate CountsOk(r: Run) {
    forall k :: CountBumps(r.trace, k) == if k in r.s.gen then r.s.gen[k] else 0
  }

  /** What is pending has been scheduled and not popped. */
  ghost predicate PendingOk(r: Run) {
    forall e :: e in r.s.pending ==> EvSchedule(e.key, e.when, e.gen) in r.trace && !WasPopped(r.trace, e.key, e.gen)
  }

  /** What is about to be deleted has been popped, current, and not fired. */
  ghost predicate AtHandOk(r: Run) {
    r.pc.Firing? ==> PoppedCurrent(r.trace, r.pc.key, r.pc.gen) && EvFire(r.pc.key, r.pc.gen) !in r.trace
  }

  ghost predicate StopOk(r: Run) {
    && (r.s.stop <==> EvStop in r.trace)
    && (!r.s.stop ==> LateFires(r.trace) == 0)
    && LateFires(r.trace) + (if r.pc.Firing? then 1 else 0) <= 1
  }

  ghost predicate TraceInv(r: Run) {
    EventsOk(r.trace) && CountsOk(r) && PendingOk(r) && AtHandOk(r) && StopOk(r)
  }

  lemma AppendEvent(trace: seq<Ev>, ev: Ev)
    requires EventsOk(trace) && EventOk(trace, ev)
    ensures EventsOk(trace + [ev])
  {
    var longer := trace + [ev];
    forall j | 0 <= j < |longer| ensures EventOk(longer[..j], longer[j]) {
      if j < |trace| { assert longer[..j] == trace[..j]; } else { assert longer[..j] == trace; }
    }
  }

  lemma AppendCounts(trace: seq<Ev>, ev: Ev)
    ensures forall k :: CountBumps(trace + [ev], k) == CountBumps(trace, k) + if Bumps(ev, k) then 1 else 0
    ensures LateFires(trace + [ev]) == LateFires(trace) + if EvStop in trace && ev.EvFire? then 1 else 0
  {
    assert (trace + [ev])[..|trace|] == trace;
  }

  lemma {:induction false} CountGrows(trace: seq<Ev>, i: nat, j: nat, key: Key)
    requires i <= j <= |trace|
    ensures CountBumps(trace[..i], key) <= CountBumps(trace[..j], key)
    ensures CountBumps(trace[..i], key) == CountBumps(trace[..j], key) <==>
      forall m :: i <= m < j ==> !Bumps(trace[m], key)
  {
    if i < j {
      CountGrows(trace, i, j - 1, key);
      assert trace[..j][..j - 1] == trace[..j - 1];
    }
  }

  /** Nobody scheduled or cancelled `key` between events i and p. */
  ghost predicate Undisturbed(trace: seq<Ev>, i: nat, p: nat, key: Key)
    requires p <= |trace|
  {
    forall m :: i < m < p ==> !Bumps(trace[m], key)
  }

  /** The generation a `schedule` gets is how often its key has been touched, itself included. */
  lemma GenerationCounts(trace: seq<Ev>, i: nat)
    requires EventsOk(trace) && i < |trace| && trace[i].EvSchedule?
    ensures trace[i].gen == CountBumps(trace[..i + 1], trace[i].key)
  {
    assert EventOk(trace[..i], trace[i]);
    assert trace[..i + 1][..i] == trace[..i];
  }

  /** The `schedule` call a pop goes back to, and what tells whether it is still current. */
  lemma ScheduleOfPop(trace: seq<Ev>, p: nat) returns (i: nat)
    requires EventsOk(trace) && p < |trace| && trace[p].EvPop?
    ensures i < p && trace[i] == EvSchedule(trace[p].key, trace[p].when, trace[p].gen)
    ensures trace[p].gen == CountBumps(trace[..i + 1], trace[p].key) <= CountBumps(trace[..p], trace[p].key)
    ensures trace[p].current <==> Undisturbed(trace, i, p, trace[p].key)
  {
    var pop := trace[p];
    assert EventOk(trace[..p], pop);
    i :| 0 <= i < p && trace[..p][i] == EvSchedule(pop.key, pop.when, pop.gen);
    GenerationCounts(trace, i);
    CountGrows(trace, i + 1, p, pop.key);
  }

  lemma AppendNoPop(trace: seq<Ev>, ev: Ev)
    requires !ev.EvPop?
    ensures forall k, g :: WasPopped(trace + [ev], k, g) <==> WasPopped(trace, k, g)
    ensures forall k, g :: PoppedCurrent(trace, k, g) ==> PoppedCurrent(trace + [ev], k, g)
  {
    assert forall e :: e in trace + [ev] <==> e in trace || e == ev;
  }

  /** A generation beyond the current one has been popped by nobody. */
  lemma FutureNotPopped(trace: seq<Ev>, key: Key, gen: nat)
    requires EventsOk(trace) && gen > CountBumps(trace, key)
    ensures !WasPopped(trace, key, gen)
  {
    forall ev | ev in trace && ev.EvPop? && ev.key == key ensures ev.gen <= CountBumps(trace, key) {
      var p :| 0 <= p < |trace| && trace[p] == ev;
      var i := ScheduleOfPop(trace, p);
      CountGrows(trace, p, |trace|, key);
      assert trace[..|trace|] == trace;
    }
  }

  /** What has been fired has been popped. */
  lemma FireWasPopped(trace: seq<Ev>, fire: Ev)
    requires EventsOk(trace) && fire in trace && fire.EvFire?
    ensures WasPopped(trace, fire.key, fire.gen)
  {
    var j :| 0 <= j < |trace| && trace[j] == fire;
    assert EventOk(trace[..j], fire);
    var ev :| ev in trace[..j] && ev.EvPop? && ev.key == fire.key && ev.gen == fire.gen;
    assert ev in trace;
  }

  // Each clause of the invariant, kept by one more event.

  lemma CountsKept(r: Run, r': Run, ev: Ev)
    requires CountsOk(r) && r'.trace == r.trace + [ev]
    requires r'.s.gen == if ev.EvSchedule? || ev.EvCancel? then r.s.gen[ev.key := NextGen(r.s, ev.key)] else r.s.gen
    ensures CountsOk(r')
  {
    AppendCounts(r.trace, ev);
    forall k ensures CountBumps(r'.trace, k) == if k in r'.s.gen then r'.s.gen[k] else 0 {
      assert CountBumps(r.trace, k) == if k in r.s.gen then r.s.gen[k] else 0;
    }
  }

  lemma PendingKept(r: Run, r': Run, ev: Ev)
    requires PendingOk(r) && r'.trace == r.trace + [ev] && !ev.EvPop? && r'.s.pending == r.s.pending
    ensures PendingOk(r')
  {
    AppendNoPop(r.trace, ev);
    forall e | e in r'.s.pending
      ensures EvSchedule(e.key, e.when, e.gen) in r'.trace && !WasPopped(r'.trace, e.key, e.gen)
    {
      assert EvSchedule(e.key, e.when, e.gen) in r.trace;
    }
  }

  lemma AtHandKept(r: Run, r': Run, ev: Ev)
    requires AtHandOk(r) && r'.trace == r.trace + [ev] && !ev.EvPop? && !ev.EvFire? && r'.pc == Notified(r.pc)
    ensures AtHandOk(r')
  {
    if r.pc.Firing? {
      assert PoppedCurrent(r'.trace, r.pc.key, r.pc.gen) by { AppendNoPop(r.trace, ev); }
    }
  }

  lemma StopKept(r: Run, r': Run, ev: Ev)
    requires StopOk(r) && r'.trace == r.trace + [ev]
    requires r'.s.stop == (r.s.stop || ev == EvStop)
    requires ev.EvFire? ==> r.pc.Firing? && !r'.pc.Firing?
    requires !ev.EvFire? && r'.pc.Firing? ==> r.pc.Firing? || !r.s.stop
    ensures StopOk(r')
  {
    AppendCounts(r.trace, ev);
    assert EvStop in r'.trace <==> EvStop in r.trace || ev == EvStop;
  }

  lemma NewIsPending(r: Run, key: Key, when: Time)
    requires EventsOk(r.trace) && CountsOk(r) && PendingOk(r)
    ensures PendingOk(Do(r, Schedule(key, when)))
  {
    var g := NextGen(r.s, key);
    var ev := EvSchedule(key, when, g);
    var r' := Do(r, Schedule(key, when));
    assert CountBumps(r.trace, key) < g;
    FutureNotPopped(r.trace, key, g);
    AppendNoPop(r.trace, ev);
    assert r'.trace[|r.trace|] == ev;
    forall e | e in r'.s.pending
      ensures EvSchedule(e.key, e.when, e.gen) in r'.trace && !WasPopped(r'.trace, e.key, e.gen)
    {
      if e in r.s.pending { assert EvSchedule(e.key, e.when, e.gen) in r.trace; }
    }
  }

  lemma ScheduleKeepsTrace(r: Run, key: Key, when: Time)
    requires TraceInv(r)
    ensures TraceInv(Do(r, Schedule(key, when)))
  {
    var ev := EvSchedule(key, when, NextGen(r.s, key));
    var r' := Do(r, Schedule(key, when));
    NewIsPending(r, key, when);
    CountsKept(r, r', ev);
    AtHandKept(r, r', ev);
    StopKept(r, r', ev);
    assert EventOk(r.trace, ev) by { assert CountBumps(r.trace, key) + 1 == ev.gen; }
    AppendEvent(r.trace, ev);
  }

  lemma AppendPop(trace: seq<Ev>, pop: Ev)
    requires pop.EvPop?
    ensures forall k, g :: WasPopped(trace + [pop], k, g) <==> WasPopped(trace, k, g) || (pop.key == k && pop.gen == g)
    ensures pop.current ==> PoppedCurrent(trace + [pop], pop.key, pop.gen)
  {
    assert pop in trace + [pop];
    assert forall e :: e in trace + [pop] <==> e in trace || e == pop;
  }

  function PopOf(r: Run, e: Entry): Ev {
    EvPop(e.key, e.gen, e.when, r.clock, IsCurrent(r.s, e))
  }

  lemma RestIsPending(r: Run, e: Entry)
    requires PendingOk(r) && Ok(r.s) && e in r.s.pending
    ensures PendingOk(AfterPop(r, e))
  {
    var r' := AfterPop(r, e);
    AppendPop(r.trace, PopOf(r, e));
    forall f | f in r'.s.pending
      ensures EvSchedule(f.key, f.when, f.gen) in r'.trace && !WasPopped(r'.trace, f.key, f.gen)
    {
      assert EvSchedule(f.key, f.when, f.gen) in r.trace;
    }
  }

  lemma PoppedIsAtHand(r: Run, e: Entry)
    requires EventsOk(r.trace) && PendingOk(r) && e in r.s.pending
    ensures AtHandOk(AfterPop(r, e))
  {
    AppendPop(r.trace, PopOf(r, e));
    if EvFire(e.key, e.gen) in r.trace { FireWasPopped(r.trace, EvFire(e.key, e.gen)); }
  }

  lemma PopKeepsTrace(r: Run, e: Entry)
    requires TraceInv(r) && Ok(r.s) && r.pc.Running? && !r.s.stop && e in r.s.pending && e.when <= r.clock
    ensures TraceInv(AfterPop(r, e))
  {
    var r' := AfterPop(r, e);
    RestIsPending(r, e);
    PoppedIsAtHand(r, e);
    CountsKept(r, r', PopOf(r, e));
    StopKept(r, r', PopOf(r, e));
    assert EventOk(r.trace, PopOf(r, e)) by {
      assert CountBumps(r.trace, e.key) == if e.key in r.s.gen then r.s.gen[e.key] else 0;
    }
    AppendEvent(r.trace, PopOf(r, e));
  }

  lemma PassKeepsTrace(r: Run)
    requires TraceInv(r) && Ok(r.s)
    ensures TraceInv(DoPass(r))
  {
    if r.pc.Running? && !r.s.stop && r.s.pending != {} && First(r.s).when <= r.clock {
      PopKeepsTrace(r, First(r.s));
    }
  }

  lemma CancelKeepsTrace(r: Run, key: Key)
    requires TraceInv(r)
    ensures TraceInv(Do(r, Cancel(key)))
  {
    var r' := Do(r, Cancel(key));
    CountsKept(r, r', EvCancel(key));
    PendingKept(r, r', EvCancel(key));
    AtHandKept(r, r', EvCancel(key));
    StopKept(r, r', EvCancel(key));
    AppendEvent(r.trace, EvCancel(key));
  }

  lemma StopKeepsTrace(r: Run)
    requires TraceInv(r)
    ensures TraceInv(Do(r, Stop))
  {
    var r' := Do(r, Stop);
    CountsKept(r, r', EvStop);
    PendingKept(r, r', EvStop);
    AtHandKept(r, r', EvStop);
    StopKept(r, r', EvStop);
    AppendEvent(r.trace, EvStop);
  }

  lemma FireKeepsTrace(r: Run)
    requires TraceInv(r)
    ensures TraceInv(Do(r, Fire))
  {
    if r.pc.Firing? {
      var r', ev := Do(r, Fire), EvFire(r.pc.key, r.pc.gen);
      CountsKept(r, r', ev);
      PendingKept(r, r', ev);
      StopKept(r, r', ev);
      AppendEvent(r.trace, ev);
    }
  }

  lemma {:induction false} AlwaysTraceInv(steps: seq<Step>)
    ensures TraceInv(Exec(steps))
  {
    if steps != [] {
      var r := Exec(steps[..|steps| - 1]);
      AlwaysTraceInv(steps[..|steps| - 1]);
      AlwaysSleepsRight(steps[..|steps| - 1]);
      match steps[|steps| - 1]
      case Schedule(k, w) => ScheduleKeepsTrace(r, k, w);
      case Pass => PassKeepsTrace(r);
      case Cancel(k) => CancelKeepsTrace(r, k);
      case Stop => StopKeepsTrace(r);
      case Fire => FireKeepsTrace(r);
      case _ =>
    }
  }

  // ---- the theorems ------------------------------------------------------------

  /** A pop belongs to one earlier `schedule`, comes no earlier than its deadline, and is current exactly if the key was left alone since. */
  lemma PopBelongsToItsSchedule(steps: seq<Step>, p: nat) returns (i: nat)
    requires p < |Exec(steps).trace| && Exec(steps).trace[p].EvPop?
    ensures var trace := Exec(steps).trace; var pop := trace[p];
      && i < p && trace[i] == EvSchedule(pop.key, pop.when, pop.gen)
      && pop.when <= pop.now
      && (pop.current <==> Undisturbed(trace, i, p, pop.key))
  {
    AlwaysTraceInv(steps);
    assert EventOk(Exec(steps).trace[..p], Exec(steps).trace[p]);
    i := ScheduleOfPop(Exec(steps).trace, p);
  }

  /** Popping `e` appends its event, and goes on to the delete exactly if the key was left alone since the `schedule`. */
  lemma PopGoesOn(r: Run, e: Entry) returns (i: nat)
    requires TraceInv(r) && Ok(r.s) && r.pc.Running? && !r.s.stop && e in r.s.pending && e.when <= r.clock
    ensures var r' := AfterPop(r, e); var p := |r.trace|;
      && i < p && r'.trace[i] == EvSchedule(e.key, e.when, e.gen)
      && (r'.pc == if Undisturbed(r'.trace, i, p, e.key) then Firing(e.key, e.gen) else Running)
  {
    PopKeepsTrace(r, e);
    i := ScheduleOfPop(AfterPop(r, e).trace, |r.trace|);
  }

  lemma FirstIsDue(r: Run)
    requires exists e :: e in r.s.pending && e.when <= r.clock
    ensures r.s.pending != {} && First(r.s) in r.s.pending && First(r.s).when <= r.clock
    ensures forall e :: e in r.s.pending ==> First(r.s).when <= e.when
  {
    forall e | e in r.s.pending ensures First(r.s).when <= e.when {
      assert Leq(First(r.s), e);
    }
  }

  lemma PassPops(r: Run) returns (i: nat, e: Entry)
    requires TraceInv(r) && Ok(r.s) && r.pc.Running? && !r.s.stop && exists e :: e in r.s.pending && e.when <= r.clock
    ensures var r' := DoPass(r); var p := |r.trace|;
      && IsFirst(r.s, e) && (forall f :: f in r.s.pending ==> e.when <= f.when)
      && r'.trace == r.trace + [EvPop(e.key, e.gen, e.when, r.clock, IsCurrent(r.s, e))]
      && r'.s.pending == r.s.pending - {e}
      && i < p && r'.trace[i] == EvSchedule(e.key, e.when, e.gen)
      && (r'.pc == if Undisturbed(r'.trace, i, p, e.key) then Firing(e.key, e.gen) else Running)
  {
    FirstIsDue(r);
    e := First(r.s);
    i := PopGoesOn(r, e);
  }

  /** A pass finds what is due: it pops a first entry, and goes on to delete it exactly if its key was left alone since the `schedule`. */
  lemma PassPopsTheDue(steps: seq<Step>) returns (i: nat, e: Entry)
    requires var r := Exec(steps);
      r.pc.Running? && !r.s.stop && exists e :: e in r.s.pending && e.when <= r.clock
    ensures var r, r' := Exec(steps), Do(Exec(steps), Pass); var p := |r.trace|;
      && IsFirst(r.s, e) && (forall f :: f in r.s.pending ==> e.when <= f.when)
      && r'.trace == r.trace + [EvPop(e.key, e.gen, e.when, r.clock, IsCurrent(r.s, e))]
      && r'.s.pending == r.s.pending - {e}
      && i < p && r'.trace[i] == EvSchedule(e.key, e.when, e.gen)
      && (r'.pc == if Undisturbed(r'.trace, i, p, e.key) then Firing(e.key, e.gen) else Running)
  {
    AlwaysSleepsRight(steps);
    AlwaysTraceInv(steps);
    i, e := PassPops(Exec(steps));
  }

  /** The pop behind an expire delete. */
  lemma PopOfFire(trace: seq<Ev>, j: nat) returns (p: nat)
    requires EventsOk(trace) && j < |trace| && trace[j].EvFire?
    ensures p < j && trace[p].EvPop? && trace[p].current && trace[p].key == trace[j].key && trace[p].gen == trace[j].gen
  {
    assert EventOk(trace[..j], trace[j]);
    var ev :| ev in trace[..j] && ev.EvPop? && ev.key == trace[j].key && ev.gen == trace[j].gen && ev.current;
    p :| 0 <= p < j && trace[..j][p] == ev;
  }

  /** An expire delete was popped, current and due, from an undisturbed earlier `schedule`. */
  lemma FireIsEarned(steps: seq<Step>, j: nat) returns (i: nat, p: nat)
    requires j < |Exec(steps).trace| && Exec(steps).trace[j].EvFire?
    ensures var trace := Exec(steps).trace; var fire := trace[j];
      && i < p < j
      && trace[i].EvSchedule? && trace[i].key == fire.key && trace[i].gen == fire.gen
      && trace[p].EvPop? && trace[p].current && trace[p].key == fire.key && trace[p].gen == fire.gen
      && trace[i].when <= trace[p].now
      && Undisturbed(trace, i, p, fire.key)
  {
    AlwaysTraceInv(steps);
    p := PopOfFire(Exec(steps).trace, j);
    i := PopBelongsToItsSchedule(steps, p);
  }

  lemma SchedulesDiffer(trace: seq<Ev>, i: nat, j: nat)
    requires EventsOk(trace) && i < j < |trace| && trace[i].EvSchedule? && trace[j].EvSchedule?
    ensures trace[i].key != trace[j].key || trace[i].gen != trace[j].gen
  {
    GenerationCounts(trace, i);
    GenerationCounts(trace, j);
    CountGrows(trace, i + 1, j + 1, trace[j].key);
  }

  lemma FiresDiffer(trace: seq<Ev>, i: nat, j: nat)
    requires EventsOk(trace) && i < j < |trace| && trace[i].EvFire? && trace[j].EvFire?
    ensures trace[i] != trace[j]
  {
    assert EventOk(trace[..j], trace[j]);
    assert trace[..j][i] == trace[i];
  }

  /** No two `schedule` calls share a key and a generation, and no two expire deletes do: each call causes at most one. */
  lemma AtMostOneFirePerSchedule(steps: seq<Step>, i: nat, j: nat)
    requires i < j < |Exec(steps).trace|
    requires var trace := Exec(steps).trace;
      (trace[i].EvSchedule? && trace[j].EvSchedule?) || (trace[i].EvFire? && trace[j].EvFire?)
    ensures var trace := Exec(steps).trace; trace[i].key != trace[j].key || trace[i].gen != trace[j].gen
  {
    AlwaysTraceInv(steps);
    if Exec(steps).trace[i].EvSchedule? {
      SchedulesDiffer(Exec(steps).trace, i, j);
    } else {
      FiresDiffer(Exec(steps).trace, i, j);
    }
  }

  /** After `stop` at most one expire delete follows, and nothing more is popped; the loop's next pass leaves. */
  lemma StopBound(steps: seq<Step>)
    requires Exec(steps).s.stop
    ensures LateFires(Exec(steps).trace) <= 1
    ensures forall j :: 0 <= j < |Exec(steps).trace| && Exec(steps).trace[j].EvPop? ==> EvStop !in Exec(steps).trace[..j]
    ensures !Exec(steps).pc.Asleep? && (Exec(steps).pc == Running ==> Do(Exec(steps), Pass).pc == Exited)
  {
    AlwaysTraceInv(steps);
    AlwaysSleepsRight(steps);
    forall j | 0 <= j < |Exec(steps).trace| && Exec(steps).trace[j].EvPop? ensures EvStop !in Exec(steps).trace[..j] {
      assert EventOk(Exec(steps).trace[..j], Exec(steps).trace[j]);
    }
  }

  /** A delete after `stop` was popped before it. */
  lemma LateFireWasPopped(steps: seq<Step>, j: nat) returns (p: nat)
    requires j < |Exec(steps).trace| && Exec(steps).trace[j].EvFire?
    ensures var trace := Exec(steps).trace;
      && p < j && trace[p].EvPop? && trace[p].key == trace[j].key && trace[p].gen == trace[j].gen
      && EvStop !in trace[..p]
  {
    var i, q := FireIsEarned(steps, j);
    p := q;
    AlwaysTraceInv(steps);
    assert EventOk(Exec(steps).trace[..p], Exec(steps).trace[p]);
  }
}
