/**
 What every interleaving of writers guarantees: linearizability of `mutate`,
 conflict accounting, invariants of transactions, exact reports of `atomic`,
 and what the reads of `mget` see.
 */
module Linearizability {
  import opened Values
  import opened CasStore

  // ---- linearizability ----------------------------------------------

  /** The k-th object `_ref` held is the k-th state of the sequential reference. */
  lemma {:induction false} HistIsReplay(s: State, k: nat)
    requires HistOk(s) && k <= |s.log|
    ensures s.heap[s.hist[k]] == Replay(s.log[..k])
  {
    if k > 0 {
      HistIsReplay(s, k - 1);
      assert s.log[..k][..k - 1] == s.log[..k - 1];
      assert s.log[..k][k - 1] == s.log[k - 1];
    }
  }

  /** A call that returned did exactly what its transaction does at one point of its interval. */
  ghost predicate TookEffect(s: State, id: CallId)
    requires id in s.calls && s.calls[id].pc.Returned?
  {
    var c := s.calls[id];
    var at := c.pc.at;
    && c.started <= at <= c.ended <= |s.log|
    && Deref(s, c.pc.snap) == Effect(c.op, Replay(s.log[..at]))
    && (c.pc.swapped ==> at < c.ended && s.log[at] == Commit(id, c.op))
    && (!c.pc.swapped ==> Effect(c.op, Replay(s.log[..at])) == Replay(s.log[..at])
                          && forall i :: 0 <= i < |s.log| ==> s.log[i].id != id)
  }

  lemma CurrentIsReplay(max: int, schedule: seq<Step>)
    ensures Current(Exec(max, schedule)) == Replay(Exec(max, schedule).log)
  {
    var s := Exec(max, schedule);
    ExecKeepsInv(max, schedule);
    HistIsReplay(s, |s.log|);
    assert s.log[..|s.log|] == s.log;
  }

  lemma {:induction false} Linearizable(max: int, schedule: seq<Step>)
    ensures var s := Exec(max, schedule);
      && Current(s) == Replay(s.log)
      && (forall id :: id in s.calls && s.calls[id].pc.Returned? ==> TookEffect(s, id))
      // every swap in the log is the one swap of a call that returned
      && (forall i :: 0 <= i < |s.log| ==>
            && s.log[i].id in s.calls && s.calls[s.log[i].id].pc.Returned?
            && s.calls[s.log[i].id].pc.swapped && s.calls[s.log[i].id].pc.at == i)
      // and a bare `mutate` left its function applied to the map at that position
      && (forall id :: id in s.calls && s.calls[id].pc.Returned? && s.calls[id].op.Mutate? ==>
            && s.calls[id].pc.at < |s.hist|
            && Deref(s, s.calls[id].pc.snap) == s.calls[id].op.fn(Deref(s, s.hist[s.calls[id].pc.at])))
  {
    var s := Exec(max, schedule);
    ExecKeepsInv(max, schedule);
    CurrentIsReplay(max, schedule);
    forall id | id in s.calls && s.calls[id].pc.Returned? ensures TookEffect(s, id) {
      assert CallOk(max, s, id);
      HistIsReplay(s, s.calls[id].pc.at);
    }
    forall id | id in s.calls && s.calls[id].pc.Returned? && s.calls[id].op.Mutate?
      ensures s.calls[id].pc.at < |s.hist|
      ensures Deref(s, s.calls[id].pc.snap) == s.calls[id].op.fn(Deref(s, s.hist[s.calls[id].pc.at]))
    {
      assert CallOk(max, s, id);
    }
  }

  // ---- runs only grow -------------------------------------------------

  ghost predicate Later(s: State, s': State) {
    && Grows(s, s')
    && (forall id :: id in s.calls ==>
          id in s'.calls && s'.calls[id].op == s.calls[id].op && s'.calls[id].started == s.calls[id].started)
    && (forall id :: id in s.calls && Over(s.calls[id].pc) ==> s'.calls[id] == s.calls[id])
    && (forall id :: id in s'.calls && id !in s.calls ==> |s.log| <= s'.calls[id].started)
  }

  lemma AtLater(s: State, id: CallId, c: Call, pc: Pc)
    requires id in s.calls && !Over(s.calls[id].pc)
    requires c.op == s.calls[id].op && c.started == s.calls[id].started
    ensures Later(s, At(s, id, c, pc))
  {}

  lemma SwapLater(s: State, id: CallId, c: Call)
    requires id in s.calls && s.calls[id] == c
    ensures Later(s, DoSwap(s, id, c))
  {}

  lemma ComputeLater(s: State, id: CallId, c: Call, result: Option<Addr>)
    requires id in s.calls && s.calls[id] == c
    ensures Later(s, DoCompute(s, id, c, result))
  {}

  lemma DoLater(max: int, s: State, step: Step)
    ensures Later(s, Do(max, s, step))
  {
    if !step.Begin? && step.id in s.calls {
      var c := s.calls[step.id];
      match step
      case Swap(id) => SwapLater(s, id, c);
      case Compute(id, result) => ComputeLater(s, id, c, result);
      case ProbeKey(id) => if c.pc.Probe? { AtLater(s, id, c, Loop(0)); AtLater(s, id, c, Absent); }
      case Read(id) =>
        if c.pc.Loop? {
          AtLater(s, id, c, Computing(c.pc.attempt, s.ref, |s.log|));
          AtLater(s, id, c, Raised(c.pc.attempt));
        }
      case FnRaises(id) => if c.pc.Computing? { AtLater(s, id, c, Aborted); }
    }
  }

  lemma {:induction false} ExecLater(max: int, schedule: seq<Step>, t: nat)
    requires t <= |schedule|
    ensures Later(Exec(max, schedule[..t]), Exec(max, schedule))
  {
    if t == |schedule| {
      assert schedule[..t] == schedule;
    } else {
      var front := schedule[..|schedule| - 1];
      assert front[..t] == schedule[..t];
      ExecLater(max, front, t);
      DoLater(max, Exec(max, front), schedule[|schedule| - 1]);
    }
  }

  lemma LogGrows(max: int, schedule: seq<Step>, t: nat)
    requires t <= |schedule|
    ensures Exec(max, schedule[..t]).log <= Exec(max, schedule).log
  {
    ExecLater(max, schedule, t);
  }

  /** Calls that do not overlap take effect in the order they were made. */
  lemma {:induction false} RealTimeOrder(max: int, schedule: seq<Step>, t: nat, a: CallId, b: CallId)
    requires t <= |schedule|
    requires var mid := Exec(max, schedule[..t]); a in mid.calls && mid.calls[a].pc.Returned? && b !in mid.calls
    requires var s := Exec(max, schedule); b in s.calls && s.calls[b].pc.Returned?
    ensures var s := Exec(max, schedule);
      && a in s.calls && s.calls[a].pc.Returned?
      && s.calls[a].pc.at + (if s.calls[a].pc.swapped then 1 else 0) <= s.calls[b].pc.at
  {
    var mid, s := Exec(max, schedule[..t]), Exec(max, schedule);
    ExecLater(max, schedule, t);
    ExecKeepsInv(max, schedule[..t]);
    ExecKeepsInv(max, schedule);
    assert CallOk(max, mid, a) && CallOk(max, s, b);
  }

  /** The object a reader obtained after `t` steps holds the state of that moment for the rest of any run. */
  lemma SnapshotsNeverChange(max: int, schedule: seq<Step>, t: nat)
    requires t <= |schedule|
    ensures Deref(Exec(max, schedule), Exec(max, schedule[..t]).ref) == Replay(Exec(max, schedule[..t]).log)
  {
    ExecLater(max, schedule, t);
    ExecKeepsInv(max, schedule[..t]);
    CurrentIsReplay(max, schedule[..t]);
  }

  // ---- conflict accounting --------------------------------------------

  function Ids(log: seq<Commit>): set<CallId> {
    set i | 0 <= i < |log| :: log[i].id
  }

  /** Swaps of distinct calls are counted one by one. */
  lemma {:induction false} CountIds(log: seq<Commit>)
    requires forall i, j :: 0 <= i < j < |log| ==> log[i].id != log[j].id
    ensures |Ids(log)| == |log|
  {
    if log != [] {
      var n := |log| - 1;
      CountIds(log[..n]);
      assert Ids(log) == Ids(log[..n]) + {log[n].id};
    }
  }

  /** The calls whose swaps happened while call `id` was running. */
  function Rivals(s: State, id: CallId): set<CallId>
    requires id in s.calls && s.calls[id].started <= s.calls[id].ended <= |s.log|
  {
    Ids(s.log[s.calls[id].started..s.calls[id].ended])
  }

  /** Commit number i is the one swap of its call. */
  lemma CommitIsItsCalls(s: State, i: nat)
    requires HistOk(s) && LogOk(s) && i < |s.log|
    ensures s.log[i].id in s.calls
    ensures var pc := s.calls[s.log[i].id].pc; pc.Returned? && pc.swapped && pc.at == i
  {}

  /** The swaps in a losing call's interval belong to as many different other calls. */
  lemma RivalsAreCalls(s: State, id: CallId)
    requires HistOk(s) && LogOk(s) && id in s.calls && !s.calls[id].pc.Returned?
    requires s.calls[id].started <= s.calls[id].ended <= |s.log|
    ensures var c := s.calls[id];
      && |Rivals(s, id)| == c.ended - c.started
      && id !in Rivals(s, id)
      && (forall r :: r in Rivals(s, id) ==>
            r in s.calls && s.calls[r].pc.Returned? && s.calls[r].pc.swapped && c.started <= s.calls[r].pc.at < c.ended)
  {
    var c := s.calls[id];
    var part := s.log[c.started..c.ended];
    forall i | 0 <= i < |part|
      ensures part[i].id in s.calls
      ensures var pc := s.calls[part[i].id].pc; pc.Returned? && pc.swapped && pc.at == c.started + i
    {
      CommitIsItsCalls(s, c.started + i);
    }
    CountIds(part);
  }

  /** A call that has lost `a` attempts has been overtaken by the swaps of at least `a` different other calls. */
  lemma LostAttemptsAreCharged(max: int, schedule: seq<Step>, id: CallId)
    requires var s := Exec(max, schedule); id in s.calls && s.calls[id].pc.Loop?
    ensures var s := Exec(max, schedule);
      && s.calls[id].started <= s.calls[id].ended <= |s.log|
      && s.calls[id].pc.attempt <= |Rivals(s, id)| && id !in Rivals(s, id)
      && (forall r :: r in Rivals(s, id) ==> r in s.calls && s.calls[r].pc.Returned? && s.calls[r].pc.swapped)
  {
    ExecKeepsInv(max, schedule);
    assert CallOk(max, Exec(max, schedule), id);
    RivalsAreCalls(Exec(max, schedule), id);
  }

  /** A call that gives up made exactly `max_retries` attempts and overlapped at least `max_retries` successful swaps, all by different other calls. */
  lemma RaisedMeansRivals(max: int, schedule: seq<Step>, id: CallId)
    requires var s := Exec(max, schedule); id in s.calls && s.calls[id].pc.Raised?
    ensures var s := Exec(max, schedule);
      && s.calls[id].started <= s.calls[id].ended <= |s.log|
      && s.calls[id].pc.attempts == Attempts(max) <= |Rivals(s, id)|
      && id !in Rivals(s, id)
      && (forall r :: r in Rivals(s, id) ==>
            r in s.calls && s.calls[r].pc.Returned? && s.calls[r].pc.swapped
            && s.calls[id].started <= s.calls[r].pc.at < s.calls[id].ended)
  {
    ExecKeepsInv(max, schedule);
    assert CallOk(max, Exec(max, schedule), id);
    RivalsAreCalls(Exec(max, schedule), id);
  }

  lemma {:induction false} SubsetSize<T>(a: set<T>, b: set<T>)
    requires a <= b
    ensures |a| <= |b|
    decreases |a|
  {
    if x :| x in a {
      SubsetSize(a - {x}, b - {x});
    }
  }

  /** If a call gives up, at least `max_retries` others succeeded: there were more calls than that. */
  lemma RaisedMeansManyCalls(max: int, schedule: seq<Step>, id: CallId)
    requires var s := Exec(max, schedule); id in s.calls && s.calls[id].pc.Raised?
    ensures |Exec(max, schedule).calls| > max
  {
    var s := Exec(max, schedule);
    RaisedMeansRivals(max, schedule, id);
    SubsetSize(Rivals(s, id) + {id}, s.calls.Keys);
  }

  /** With at most `max_retries` calls in all, none ever raises. */
  lemma FewCallsNeverRaise(max: int, schedule: seq<Step>)
    requires |Exec(max, schedule).calls| <= max
    ensures forall id :: id in Exec(max, schedule).calls ==> !Exec(max, schedule).calls[id].pc.Raised?
  {
    forall id | id in Exec(max, schedule).calls && Exec(max, schedule).calls[id].pc.Raised? ensures false {
      RaisedMeansManyCalls(max, schedule, id);
    }
  }

  // ---- invariants of transactions -------------------------------------

  ghost predicate Preserves(op: Op, good: Contents -> bool) {
    forall m: Contents :: good(m) ==> good(Effect(op, m))
  }

  lemma {:induction false} ReplayPreserves(log: seq<Commit>, p: nat, good: Contents -> bool)
    requires p <= |log| && good(Replay(log[..p]))
    requires forall i :: p <= i < |log| ==> Preserves(log[i].op, good)
    ensures good(Replay(log))
  {
    if p == |log| {
      assert log[..p] == log;
    } else {
      var n := |log| - 1;
      assert log[..n][..p] == log[..p];
      ReplayPreserves(log[..n], p, good);
      assert Preserves(log[n].op, good);
    }
  }

  /**
   Once a property of the whole map holds, and every transaction committed from
   then on keeps it, no reader ever sees it broken again.
   */
  lemma ReadersNeverSeeItBroken(max: int, schedule: seq<Step>, p: nat, t: nat, good: Contents -> bool)
    requires t <= |schedule| && p <= |Exec(max, schedule[..t]).log| && p <= |Exec(max, schedule).log|
    requires good(Replay(Exec(max, schedule).log[..p]))
    requires var log := Exec(max, schedule).log; forall i :: p <= i < |log| ==> Preserves(log[i].op, good)
    ensures good(Current(Exec(max, schedule[..t])))
  {
    var early, log := Exec(max, schedule[..t]).log, Exec(max, schedule).log;
    LogGrows(max, schedule, t);
    CurrentIsReplay(max, schedule[..t]);
    assert early[..p] == log[..p];
    forall i | p <= i < |early| ensures Preserves(early[i].op, good) {
      assert early[i] == log[i];
    }
    ReplayPreserves(early, p, good);
  }

  /** No reader sees part of a batch: the state after an `mset` is the state before it overridden at once. */
  lemma BatchIsOneSwap(max: int, schedule: seq<Step>, id: CallId)
    requires var s := Exec(max, schedule); id in s.calls && s.calls[id].pc.Returned? && s.calls[id].op.Mset?
    ensures var s := Exec(max, schedule); var c := s.calls[id];
      && c.pc.at <= |s.log|
      && Deref(s, c.pc.snap) == Replay(s.log[..c.pc.at]) + AsMap(c.op.mapping)
      && (c.pc.swapped ==> c.pc.at < |s.log| && Replay(s.log[..c.pc.at + 1]) == Deref(s, c.pc.snap))
  {
    var s := Exec(max, schedule);
    Linearizable(max, schedule);
    assert TookEffect(s, id);
    var at := s.calls[id].pc.at;
    SetAllIsOverride(Replay(s.log[..at]), s.calls[id].op.mapping);
    if s.calls[id].pc.swapped {
      assert s.log[..at + 1][..at] == s.log[..at];
    }
  }

  // ---- what `atomic` reports -------------------------------------------

  /** Whatever earlier attempts left in `box`, it ends up with the values before and after the call's own point. */
  lemma AtomicReportsAreExact(max: int, schedule: seq<Step>, id: CallId)
    requires var s := Exec(max, schedule); id in s.calls && s.calls[id].pc.Returned? && s.calls[id].op.Atomic?
    ensures var s := Exec(max, schedule); var c := s.calls[id];
      && c.pc.at <= |s.log|
      && c.box.Box?
      && c.box.was == Lookup(Replay(s.log[..c.pc.at]), c.op.key)
      && c.box.becomes == c.op.f(GetOr(Replay(s.log[..c.pc.at]), c.op.key, c.op.default))
      && Lookup(Deref(s, c.pc.snap), c.op.key) == Some(c.box.becomes)
  {
    ExecKeepsInv(max, schedule);
    var s := Exec(max, schedule);
    assert CallOk(max, s, id);
    HistIsReplay(s, s.calls[id].pc.at);
  }

  /** A `delete` that returned has removed the key exactly if it swapped, and has left it absent either way. */
  lemma DeleteRemovesIffItSwaps(max: int, schedule: seq<Step>, id: CallId)
    requires var s := Exec(max, schedule); id in s.calls && s.calls[id].pc.Returned? && s.calls[id].op.Delete?
    ensures var s := Exec(max, schedule); var c := s.calls[id];
      && c.pc.at <= |s.log|
      && (c.pc.swapped <==> c.op.key in Replay(s.log[..c.pc.at]))
      && c.op.key !in Deref(s, c.pc.snap)
  {
    ExecKeepsInv(max, schedule);
    var s := Exec(max, schedule);
    assert CallOk(max, s, id);
    HistIsReplay(s, s.calls[id].pc.at);
  }

  /** `op` never changes what `key` maps to. */
  ghost predicate Leaves(op: Op, key: Key) {
    forall m: Contents :: Lookup(Effect(op, m), key) == Lookup(m, key)
  }

  lemma {:induction false} LeftAlone(log: seq<Commit>, i: nat, j: nat, key: Key)
    requires i <= j <= |log|
    requires forall p :: i <= p < j ==> Leaves(log[p].op, key)
    ensures Lookup(Replay(log[..j]), key) == Lookup(Replay(log[..i]), key)
  {
    if i < j {
      LeftAlone(log, i, j - 1, key);
      assert log[..j][..j - 1] == log[..j - 1];
      assert Leaves(log[j - 1].op, key);
    }
  }

  /** The `atomic` call that made commit number i reports the values just before and just after that commit. */
  lemma CommitReport(max: int, schedule: seq<Step>, i: nat)
    requires i < |Exec(max, schedule).log| && Exec(max, schedule).log[i].op.Atomic?
    ensures var s := Exec(max, schedule); var key := s.log[i].op.key;
      && s.log[i].id in s.calls && s.calls[s.log[i].id].box.Box?
      && s.calls[s.log[i].id].box.was == Lookup(Replay(s.log[..i]), key)
      && Lookup(Replay(s.log[..i + 1]), key) == Some(s.calls[s.log[i].id].box.becomes)
  {
    var s := Exec(max, schedule);
    ExecKeepsInv(max, schedule);
    assert CallOk(max, s, s.log[i].id);
    HistIsReplay(s, i);
    HistIsReplay(s, i + 1);
  }

  /** Two `atomic` calls on a key with nothing on that key between them: the second's old value is the first's new one. */
  lemma AtomicChain(max: int, schedule: seq<Step>, i: nat, j: nat, key: Key)
    requires i < j < |Exec(max, schedule).log|
    requires forall n :: n in {i, j} ==>
      Exec(max, schedule).log[n].op.Atomic? && Exec(max, schedule).log[n].op.key == key
    requires forall p :: i < p < j ==> Leaves(Exec(max, schedule).log[p].op, key)
    ensures var s := Exec(max, schedule);
      && s.log[i].id in s.calls && s.log[j].id in s.calls
      && s.calls[s.log[i].id].box.Box? && s.calls[s.log[j].id].box.Box?
      && s.calls[s.log[j].id].box.was == Some(s.calls[s.log[i].id].box.becomes)
  {
    CommitReport(max, schedule, i);
    CommitReport(max, schedule, j);
    LeftAlone(Exec(max, schedule).log, i + 1, j, key);
  }

  /** An increment of `key`: `atomic(key, lambda v: v + 1)`, with any default. */
  ghost predicate IsIncrement(op: Op, key: Key) {
    && op.Atomic? && op.key == key
    && forall n: int :: op.f(Obj(n)) == Obj(n + 1)
  }

  /** The calls that swapped in an increment of `key` from log position `p` on. */
  ghost function Increments(log: seq<Commit>, p: nat, key: Key): set<CallId> {
    set i | p <= i < |log| && IsIncrement(log[i].op, key) :: log[i].id
  }

  ghost predicate DistinctIds(log: seq<Commit>) {
    forall i, j :: 0 <= i < j < |log| ==> log[i].id != log[j].id
  }

  /** Every commit from `p` on is an increment of `key` or leaves the key alone. */
  ghost predicate OnlyIncrements(log: seq<Commit>, p: nat, key: Key) {
    forall i :: p <= i < |log| ==> IsIncrement(log[i].op, key) || Leaves(log[i].op, key)
  }

  /** All increments from `p` on take `v` as their default. */
  ghost predicate DefaultIs(log: seq<Commit>, p: nat, key: Key, v: int) {
    forall i :: p <= i < |log| && IsIncrement(log[i].op, key) ==> log[i].op.default == Obj(v)
  }

  /** The counter stands at `v`: with that value, or absent and then started by its increments' default. */
  ghost predicate StandsAt(log: seq<Commit>, p: nat, key: Key, v: int)
    requires p <= |log|
  {
    Lookup(Replay(log[..p]), key) == Some(Obj(v)) || (key !in Replay(log[..p]) && DefaultIs(log, p, key, v))
  }

  /** From log position `p` on nothing but increments touches `key`, and it counts from `v`. */
  ghost predicate CountsFrom(log: seq<Commit>, p: nat, key: Key, v: int)
    requires p <= |log|
  {
    DistinctIds(log) && OnlyIncrements(log, p, key) && StandsAt(log, p, key, v)
  }

  lemma CountsFromPrefix(log: seq<Commit>, n: nat, p: nat, key: Key, v: int)
    requires p <= n <= |log| && CountsFrom(log, p, key, v)
    ensures CountsFrom(log[..n], p, key, v)
  {
    assert log[..n][..p] == log[..p];
  }

  lemma IncrementsOfPrefix(log: seq<Commit>, p: nat, key: Key, id: CallId)
    requires p < |log|
    ensures var n := |log| - 1;
      id in Increments(log, p, key) <==>
        id in Increments(log[..n], p, key) || (IsIncrement(log[n].op, key) && id == log[n].id)
  {
    var n := |log| - 1;
    if i :| p <= i < |log| && IsIncrement(log[i].op, key) && log[i].id == id && i != n {
      assert log[..n][i] == log[i];
    }
    if i :| p <= i < n && IsIncrement(log[..n][i].op, key) && log[..n][i].id == id {
      assert log[i] == log[..n][i];
    }
  }

  /** One more commit: one more increment, or the same ones. */
  lemma IncrementsStep(log: seq<Commit>, p: nat, key: Key)
    requires p < |log| && DistinctIds(log)
    ensures var n := |log| - 1;
      |Increments(log, p, key)| == |Increments(log[..n], p, key)| + if IsIncrement(log[n].op, key) then 1 else 0
  {
    var n := |log| - 1;
    var more := if IsIncrement(log[n].op, key) then {log[n].id} else {};
    forall id ensures id in Increments(log, p, key) <==> id in Increments(log[..n], p, key) + more {
      IncrementsOfPrefix(log, p, key, id);
    }
    assert Increments(log, p, key) == Increments(log[..n], p, key) + more;
  }

  lemma StepAddsUp(log: seq<Commit>, p: nat, key: Key, v: int, x: int)
    requires p < |log| && OnlyIncrements(log, p, key)
    requires var m := Replay(log[..|log| - 1]); Lookup(m, key) == Some(Obj(x)) || (key !in m && x == v && DefaultIs(log, p, key, v))
    ensures var n := |log| - 1;
      if IsIncrement(log[n].op, key) then Lookup(Replay(log), key) == Some(Obj(x + 1))
      else Lookup(Replay(log), key) == Lookup(Replay(log[..n]), key)
  {
    var n := |log| - 1;
    if !IsIncrement(log[n].op, key) { assert Leaves(log[n].op, key); }
  }

  /** The key's value is the start plus the increments; it is absent only while there are none. */
  lemma {:induction false} IncrementsAddUp(log: seq<Commit>, p: nat, key: Key, v: int)
    requires p <= |log| && CountsFrom(log, p, key, v)
    ensures Lookup(Replay(log), key) == Some(Obj(v + |Increments(log, p, key)|))
         || (key !in Replay(log) && |Increments(log, p, key)| == 0 && DefaultIs(log, p, key, v))
    ensures key in Replay(log[..p]) ==> key in Replay(log)
  {
    if p == |log| {
      assert log[..p] == log;
      assert Increments(log, p, key) == {};
    } else {
      var n := |log| - 1;
      assert log[..n][..p] == log[..p];
      CountsFromPrefix(log, n, p, key, v);
      IncrementsAddUp(log[..n], p, key, v);
      IncrementsStep(log, p, key);
      StepAddsUp(log, p, key, v, v + |Increments(log[..n], p, key)|);
    }
  }

  /** Each commit is by a call of its own and has that call's operation. */
  lemma CommitsDiffer(max: int, schedule: seq<Step>)
    ensures var s := Exec(max, schedule);
      && DistinctIds(s.log)
      && (forall i :: 0 <= i < |s.log| ==> s.log[i].id in s.calls && s.calls[s.log[i].id].op == s.log[i].op)
  {
    var s := Exec(max, schedule);
    ExecKeepsInv(max, schedule);
    forall i, j | 0 <= i < j < |s.log| ensures s.log[i].id != s.log[j].id {
      assert s.calls[s.log[i].id].pc.at == i;
    }
  }

  /** The increments that have returned and took effect at log position `p` or later. */
  ghost function CompletedIncrements(s: State, p: nat, key: Key): set<CallId> {
    set id | id in s.calls && s.calls[id].pc.Returned? && s.calls[id].pc.at >= p && IsIncrement(s.calls[id].op, key)
  }

  /** An increment changes the value, so it cannot have been a no-op. */
  lemma IncrementAlwaysSwaps(s: State, p: nat, id: CallId, key: Key, v: int)
    requires id in s.calls && s.calls[id].pc.Returned? && TookEffect(s, id) && p <= s.calls[id].pc.at
    requires IsIncrement(s.calls[id].op, key) && CountsFrom(s.log, p, key, v)
    ensures s.calls[id].pc.swapped
  {
    var at := s.calls[id].pc.at;
    CountsFromPrefix(s.log, at, p, key, v);
    IncrementsAddUp(s.log[..at], p, key, v);
    var before := Replay(s.log[..at]);
    if key in before {
      assert Lookup(Effect(s.calls[id].op, before), key) == Some(Obj(before[key].n + 1));
    }
  }

  /** The increments in the log are the completed ones. */
  lemma IncrementsAreCalls(max: int, schedule: seq<Step>, p: nat, key: Key, v: int)
    requires var s := Exec(max, schedule); p <= |s.log| && CountsFrom(s.log, p, key, v)
    ensures var s := Exec(max, schedule); Increments(s.log, p, key) == CompletedIncrements(s, p, key)
  {
    var s := Exec(max, schedule);
    Linearizable(max, schedule);
    CommitsDiffer(max, schedule);
    forall id | id in CompletedIncrements(s, p, key) ensures id in Increments(s.log, p, key) {
      IncrementAlwaysSwaps(s, p, id, key, v);
      assert s.log[s.calls[id].pc.at] == Commit(id, s.calls[id].op);
    }
    forall id | id in Increments(s.log, p, key) ensures id in CompletedIncrements(s, p, key) {
      var i :| p <= i < |s.log| && IsIncrement(s.log[i].op, key) && s.log[i].id == id;
      assert s.calls[id].pc.at == i;
    }
  }

  /** The key's value after a run that from `p` on only counts. */
  lemma CounterValue(max: int, schedule: seq<Step>, p: nat, key: Key, v: int)
    requires var s := Exec(max, schedule); p <= |s.log| && OnlyIncrements(s.log, p, key) && StandsAt(s.log, p, key, v)
    ensures var s := Exec(max, schedule);
      && GetOr(Current(s), key, Obj(v)) == Obj(v + |CompletedIncrements(s, p, key)|)
      && (key in Replay(s.log[..p]) ==> key in Current(s))
  {
    CommitsDiffer(max, schedule);
    CurrentIsReplay(max, schedule);
    IncrementsAreCalls(max, schedule, p, key, v);
    IncrementsAddUp(Exec(max, schedule).log, p, key, v);
  }

  /**
   No lost update: once `key` holds v, whoever put it there, N completed
   increments and nothing else on the key leave exactly v + N.
   */
  lemma IncrementsAreNeverLost(max: int, schedule: seq<Step>, p: nat, key: Key, v: int)
    requires var s := Exec(max, schedule);
      p <= |s.log| && Lookup(Replay(s.log[..p]), key) == Some(Obj(v)) && OnlyIncrements(s.log, p, key)
    ensures var s := Exec(max, schedule);
      Lookup(Current(s), key) == Some(Obj(v + |CompletedIncrements(s, p, key)|))
  {
    CounterValue(max, schedule, p, key, v);
  }

  /** The same for a counter nobody has set: from the empty store on, the increments' common default is where it starts. */
  lemma CounterStartsAtItsDefault(max: int, schedule: seq<Step>, key: Key, v: int)
    requires var log := Exec(max, schedule).log; OnlyIncrements(log, 0, key) && DefaultIs(log, 0, key, v)
    ensures var s := Exec(max, schedule);
      GetOr(Current(s), key, Obj(v)) == Obj(v + |CompletedIncrements(s, 0, key)|)
  {
    CounterValue(max, schedule, 0, key, v);
  }

  // ---- reads -------------------------------------------------------------

  /**
   `mget` reads `_ref` once per key: `times[i]` is how much of the schedule has
   run when key number i is read.
   */
  function Reads(max: int, schedule: seq<Step>, keys: seq<Key>, times: seq<nat>, default: Value): seq<Value>
    requires |keys| == |times|
    requires forall i :: 0 <= i < |times| ==> times[i] <= |schedule|
  {
    seq(|keys|, i requires 0 <= i < |keys| => GetOr(Current(Exec(max, schedule[..times[i]])), keys[i], default))
  }

  /** The log position a read made after `t` steps sees. */
  function Position(max: int, schedule: seq<Step>, t: nat): nat
    requires t <= |schedule|
  {
    |Exec(max, schedule[..t]).log|
  }

  lemma PositionsGrow(max: int, schedule: seq<Step>, t: nat, u: nat)
    requires t <= u <= |schedule|
    ensures Position(max, schedule, t) <= Position(max, schedule, u) <= |Exec(max, schedule).log|
  {
    assert schedule[..u][..t] == schedule[..t];
    LogGrows(max, schedule[..u], t);
    LogGrows(max, schedule, u);
  }

  lemma ReadSeesItsPosition(max: int, schedule: seq<Step>, t: nat)
    requires t <= |schedule|
    ensures Position(max, schedule, t) <= |Exec(max, schedule).log|
    ensures Current(Exec(max, schedule[..t])) == Replay(Exec(max, schedule).log[..Position(max, schedule, t)])
  {
    LogGrows(max, schedule, t);
    CurrentIsReplay(max, schedule[..t]);
    var early := Exec(max, schedule[..t]).log;
    assert Exec(max, schedule).log[..|early|] == early;
  }

  /** Each value `mget` returns is the key's value at a log position; the positions never go back and lie in the call's interval. */
  lemma ReadsAreMonotone(max: int, schedule: seq<Step>, keys: seq<Key>, times: seq<nat>, default: Value, i: nat, j: nat)
    requires |keys| == |times| && i <= j < |times|
    requires forall n :: 0 <= n < |times| ==> times[n] <= |schedule|
    requires forall n, m :: 0 <= n <= m < |times| ==> times[n] <= times[m]
    ensures Position(max, schedule, times[0]) <= Position(max, schedule, times[i])
         <= Position(max, schedule, times[j]) <= Position(max, schedule, times[|times| - 1])
         <= |Exec(max, schedule).log|
    ensures Reads(max, schedule, keys, times, default)[i]
         == GetOr(Replay(Exec(max, schedule).log[..Position(max, schedule, times[i])]), keys[i], default)
  {
    PositionsGrow(max, schedule, times[0], times[i]);
    PositionsGrow(max, schedule, times[i], times[j]);
    PositionsGrow(max, schedule, times[j], times[|times| - 1]);
    ReadSeesItsPosition(max, schedule, times[i]);
  }

  /** With no commit between its first and last read, `mget` returns one snapshot. */
  lemma QuietReadsAreOneSnapshot(max: int, schedule: seq<Step>, keys: seq<Key>, times: seq<nat>, default: Value, i: nat)
    requires |keys| == |times| && i < |times|
    requires forall n :: 0 <= n < |times| ==> times[n] <= |schedule|
    requires forall n, m :: 0 <= n <= m < |times| ==> times[n] <= times[m]
    requires Position(max, schedule, times[0]) == Position(max, schedule, times[|times| - 1])
    ensures Reads(max, schedule, keys, times, default)[i]
         == GetOr(Current(Exec(max, schedule[..times[0]])), keys[i], default)
  {
    ReadsAreMonotone(max, schedule, keys, times, default, i, i);
    ReadSeesItsPosition(max, schedule, times[0]);
  }

  // ---- ABA ------------------------------------------------------------------

  const CLEAR: Op := Mutate(m => map[])
  const OTHER: Op := Mutate(m => map["a" := Obj(1)])
  const WRITE: Op := Set("b", Null)

  /**
   ABA does happen: call 0 reads the first object, call 1 swaps it out, call 2
   swaps that very object back in, and call 0's swap then succeeds although two
   swaps went by. It still takes effect at its own log position, 2.
   */
  const ABA_SCHEDULE: seq<Step> := [
    Begin(0, WRITE), Begin(1, OTHER), Begin(2, CLEAR),
    Read(0), Compute(0, None),
    Read(1), Compute(1, None), Swap(1),
    Read(2), Compute(2, Some(0)), Swap(2),
    Swap(0)]

  ghost predicate Looks(s: State, hist: seq<Addr>, pc0: Pc, pc1: Pc, pc2: Pc) {
    && |hist| > 0 && s.hist == hist && s.ref == hist[|hist| - 1] && |s.log| == |hist| - 1
    && s.calls.Keys == {0, 1, 2}
    && s.calls[0].op == WRITE && s.calls[1].op == OTHER && s.calls[2].op == CLEAR
    && s.calls[0].pc == pc0 && s.calls[1].pc == pc1 && s.calls[2].pc == pc2
    && |s.heap| > 0 && s.heap[0] == map[]
  }

  function AbaState(i: nat): State
    requires i <= |ABA_SCHEDULE|
  {
    Exec(1000, ABA_SCHEDULE[..i])
  }

  lemma AbaStep(i: nat)
    requires i < |ABA_SCHEDULE|
    ensures AbaState(i + 1) == Do(1000, AbaState(i), ABA_SCHEDULE[i])
  {
    assert ABA_SCHEDULE[..i + 1][..i] == ABA_SCHEDULE[..i];
  }

  lemma AbaBegins()
    ensures Looks(AbaState(3), [0], Loop(0), Loop(0), Loop(0)) && |AbaState(3).heap| == 1
  {
    assert AbaState(0) == INIT;
    AbaStep(0);
    AbaStep(1);
    AbaStep(2);
  }

  lemma AbaCall0Reads()
    ensures Looks(AbaState(4), [0], Computing(0, 0, 0), Loop(0), Loop(0)) && |AbaState(4).heap| == 1
  {
    AbaBegins();
    AbaStep(3);
  }

  lemma AbaCall0Computes()
    ensures Looks(AbaState(5), [0], Swapping(0, 0, 1, 0), Loop(0), Loop(0)) && |AbaState(5).heap| == 2
  {
    AbaCall0Reads();
    AbaStep(4);
  }

  lemma AbaCall1Reads()
    ensures Looks(AbaState(6), [0], Swapping(0, 0, 1, 0), Computing(0, 0, 0), Loop(0)) && |AbaState(6).heap| == 2
  {
    AbaCall0Computes();
    AbaStep(5);
  }

  lemma AbaCall1Computes()
    ensures Looks(AbaState(7), [0], Swapping(0, 0, 1, 0), Swapping(0, 0, 2, 0), Loop(0))
  {
    AbaCall1Reads();
    AbaStep(6);
  }

  lemma AbaSwapsOut()
    ensures Looks(AbaState(8), [0, 2], Swapping(0, 0, 1, 0), Returned(2, 0, true), Loop(0))
  {
    AbaCall1Computes();
    AbaStep(7);
  }

  lemma AbaCall2Reads()
    ensures Looks(AbaState(9), [0, 2], Swapping(0, 0, 1, 0), Returned(2, 0, true), Computing(0, 2, 1))
  {
    AbaSwapsOut();
    AbaStep(8);
  }

  lemma AbaCall2Computes()
    ensures Looks(AbaState(10), [0, 2], Swapping(0, 0, 1, 0), Returned(2, 0, true), Swapping(0, 2, 0, 1))
  {
    AbaCall2Reads();
    AbaStep(9);
  }

  lemma AbaSwapsBack()
    ensures Looks(AbaState(11), [0, 2, 0], Swapping(0, 0, 1, 0), Returned(2, 0, true), Returned(0, 1, true))
  {
    AbaCall2Computes();
    AbaStep(10);
  }

  lemma AbaHappens()
    ensures var s := Exec(1000, ABA_SCHEDULE);
      && 0 in s.calls && s.calls[0].pc == Returned(1, 2, true)
      && |s.hist| == 4 && s.hist[0] == s.hist[2] && s.hist[1] != s.hist[0]
  {
    AbaSwapsBack();
    AbaStep(11);
    assert Looks(AbaState(12), [0, 2, 0, 1], Returned(1, 2, true), Returned(2, 0, true), Returned(0, 1, true));
    assert ABA_SCHEDULE[..12] == ABA_SCHEDULE;
  }
}
