/**
 What each call does to the map it read, in plain terms, and that it gets to do
 it: a call left alone for a few steps returns.
 */
module Effects {
  import opened Values
  import opened CasStore
  import opened Linearizability

  /**
   A call that returned: the object `_ref` held at its own position, and the
   object it put there, or left there.
   */
  ghost predicate Ran(s: State, id: CallId, c: Call, base: Addr, next: Addr) {
    && HistOk(s) && c.pc.Returned? && c.pc.at <= |s.log|
    && base == s.hist[c.pc.at] && next == c.pc.snap && next < |s.heap|
    && (if c.pc.swapped then c.pc.at < |s.log| && s.log[c.pc.at].id == id && s.hist[c.pc.at + 1] == next
        else next == base)
  }

  /** The objects `_ref` has held are exactly those a reader finds in it, one after the other. */
  lemma {:induction false} HistIsWhatReadersFind(max: int, schedule: seq<Step>, t: nat, s: State, early: State)
    requires t <= |schedule| && early == Exec(max, schedule[..t]) && s == Exec(max, schedule)
    ensures HistOk(s) && |early.log| <= |s.log| && s.hist[|early.log|] == early.ref
    ensures s.hist[|s.log|] == s.ref
  {
    ExecLater(max, schedule, t);
    ExecKeepsInv(max, schedule[..t]);
    ExecKeepsInv(max, schedule);
  }

  /** `mutate` leaves its function's result on the very map it read. */
  lemma {:induction false} MutateAppliesItsFunction(
    max: int, schedule: seq<Step>, s: State, id: CallId, c: Call, fn: Contents -> Contents)
    returns (base: Addr, next: Addr)
    requires s == Exec(max, schedule) && id in s.calls && c == s.calls[id]
    requires c.pc.Returned? && c.op == Mutate(fn)
    ensures Ran(s, id, c, base, next)
    ensures s.heap[next] == fn(s.heap[base])
  {
    ExecKeepsInv(max, schedule);
    assert CallOk(max, s, id);
    base, next := s.hist[c.pc.at], c.pc.snap;
  }

  /** `set` writes its key and no other. */
  lemma {:induction false} SetWritesItsKey(max: int, schedule: seq<Step>, s: State, id: CallId, c: Call, key: Key, value: Value)
    returns (base: Addr, next: Addr)
    requires s == Exec(max, schedule) && id in s.calls && c == s.calls[id]
    requires c.pc.Returned? && c.op == Set(key, value)
    ensures Ran(s, id, c, base, next)
    ensures s.heap[next] == s.heap[base][key := value]
  {
    ExecKeepsInv(max, schedule);
    assert CallOk(max, s, id);
    base, next := s.hist[c.pc.at], c.pc.snap;
  }

  /** Each pair of the batch is there afterwards, and every other key is as it was. */
  ghost predicate Batch(d: Dict, before: Contents, after: Contents) {
    && (forall i :: 0 <= i < |d| ==> d[i].0 in after && after[d[i].0] == d[i].1)
    && (forall k :: (forall i :: 0 <= i < |d| ==> d[i].0 != k) ==>
          (k in after <==> k in before) && (k in after ==> after[k] == before[k]))
  }

  lemma BatchIsWritten(d: Dict, m: Contents)
    ensures Batch(d, m, SetAll(m, d))
  {
    SetAllIsOverride(m, d);
    forall i | 0 <= i < |d| ensures d[i].0 in SetAll(m, d) && SetAll(m, d)[d[i].0] == d[i].1 { AsMapAt(d, i); }
    forall k | forall i :: 0 <= i < |d| ==> d[i].0 != k ensures k !in AsMap(d) { AsMapKeys(d, k); }
  }

  /** `mset` writes its pairs and no other key. */
  lemma {:induction false} MsetWritesItsPairs(max: int, schedule: seq<Step>, s: State, id: CallId, c: Call, d: Dict)
    returns (base: Addr, next: Addr)
    requires s == Exec(max, schedule) && id in s.calls && c == s.calls[id]
    requires c.pc.Returned? && c.op == Mset(d)
    ensures Ran(s, id, c, base, next)
    ensures Batch(d, s.heap[base], s.heap[next])
  {
    ExecKeepsInv(max, schedule);
    assert CallOk(max, s, id);
    base, next := s.hist[c.pc.at], c.pc.snap;
    BatchIsWritten(d, s.heap[s.hist[c.pc.at]]);
  }

  /** `atomic` transforms the key's value, or the default, on the very map it read, and no other key. */
  lemma {:induction false} AtomicTransformsItsKey(
    max: int, schedule: seq<Step>, s: State, id: CallId, c: Call, key: Key, f: Value -> Value, default: Value)
    returns (base: Addr, next: Addr)
    requires s == Exec(max, schedule) && id in s.calls && c == s.calls[id]
    requires c.pc.Returned? && c.op == Atomic(key, f, default)
    ensures Ran(s, id, c, base, next)
    ensures s.heap[next] == s.heap[base][key := f(if key in s.heap[base] then s.heap[base][key] else default)]
  {
    ExecKeepsInv(max, schedule);
    assert CallOk(max, s, id);
    base, next := s.hist[c.pc.at], c.pc.snap;
  }

  /** `delete` takes out its key and no other. */
  lemma {:induction false} DeleteTakesOutItsKey(max: int, schedule: seq<Step>, s: State, id: CallId, c: Call, key: Key)
    returns (base: Addr, next: Addr)
    requires s == Exec(max, schedule) && id in s.calls && c == s.calls[id]
    requires c.pc.Returned? && c.op == Delete(key)
    ensures Ran(s, id, c, base, next)
    ensures s.heap[next] == s.heap[base] - {key}
  {
    ExecKeepsInv(max, schedule);
    assert CallOk(max, s, id);
    base, next := s.hist[c.pc.at], c.pc.snap;
    assert key !in s.heap[s.hist[c.pc.at]] ==> s.heap[s.hist[c.pc.at]] - {key} == s.heap[s.hist[c.pc.at]];
  }

  /** Two `mutate` calls, one straight after the other in the log: g after f. */
  lemma {:induction false} MutateThenMutate(
    max: int, schedule: seq<Step>, s: State, i: nat, f: Contents -> Contents, g: Contents -> Contents)
    requires s == Exec(max, schedule) && i + 1 < |s.log|
    requires s.log[i].op == Mutate(f) && s.log[i + 1].op == Mutate(g)
    ensures HistOk(s) && s.heap[s.hist[i + 2]] == g(f(s.heap[s.hist[i]]))
  {
    ExecKeepsInv(max, schedule);
    assert s.heap[s.hist[i + 1]] == f(s.heap[s.hist[i]]);
  }

  // ---- obstruction freedom ----------------------------------------------------

  /** What a call needs from the store to run through: the map's address is good. */
  ghost predicate Runs(s: State, t: State, id: CallId)
    requires id in s.calls
  {
    && id in t.calls && t.calls[id].op == s.calls[id].op
    && t.calls[id].pc.Returned? && t.calls[id].pc.at == |s.log| && t.ref == t.calls[id].pc.snap
    && |t.hist| > |s.log| && t.hist[|s.log|] == s.ref && s.heap <= t.heap
    && t.log == s.log + (if t.calls[id].pc.swapped then [Commit(id, s.calls[id].op)] else [])
    && t.calls == s.calls[id := t.calls[id]]
  }

  /** Reading, computing and swapping with nobody in between. */
  function ThreeSteps(s: State, id: CallId): seq<Step>
    requires id in s.calls
  {
    [Read(id), Compute(id, if ReturnsItsArgument(s.calls[id].op, Current(s)) then Some(s.ref) else None), Swap(id)]
  }

  lemma ReadsAlone(max: int, s: State, id: CallId)
    requires HistOk(s) && id in s.calls && s.calls[id].pc.Loop? && s.calls[id].pc.attempt < max
    ensures var t := Do(max, s, Read(id));
      && t == s.(calls := t.calls) && t.calls == s.calls[id := t.calls[id]] && t.calls[id].op == s.calls[id].op
      && t.calls[id].pc == Computing(s.calls[id].pc.attempt, s.ref, |s.log|)
  {}

  lemma ComputesAndSwapsAlone(max: int, s: State, id: CallId)
    requires HistOk(s) && id in s.calls && s.calls[id].pc.Computing?
    requires s.calls[id].pc.base == s.ref && s.calls[id].pc.seen == |s.log|
    ensures var r := if ReturnsItsArgument(s.calls[id].op, Current(s)) then Some(s.ref) else None;
      Runs(s, Do(max, Do(max, s, Compute(id, r)), Swap(id)), id)
  {}

  lemma RunsThrough(max: int, s: State, id: CallId)
    requires HistOk(s) && id in s.calls && s.calls[id].pc.Loop? && s.calls[id].pc.attempt < max
    ensures var r := if ReturnsItsArgument(s.calls[id].op, Current(s)) then Some(s.ref) else None;
      Runs(s, Do(max, Do(max, Do(max, s, Read(id)), Compute(id, r)), Swap(id)), id)
  {
    ReadsAlone(max, s, id);
    ComputesAndSwapsAlone(max, Do(max, s, Read(id)), id);
  }

  lemma ExecSnoc(max: int, schedule: seq<Step>, step: Step)
    ensures Exec(max, schedule + [step]) == Do(max, Exec(max, schedule), step)
  {
    assert (schedule + [step])[..|schedule|] == schedule;
  }

  /**
   In every reachable state, a call about to start an attempt it still has
   returns if nobody else moves for three steps, and works on the map of that
   moment.
   */
  lemma {:induction false} CallLeftAloneReturns(max: int, schedule: seq<Step>, s: State, id: CallId) returns (more: seq<Step>)
    requires s == Exec(max, schedule) && id in s.calls && s.calls[id].pc.Loop? && s.calls[id].pc.attempt < max
    ensures |more| == 3 && (forall i :: 0 <= i < 3 ==> more[i].id == id)
    ensures Runs(s, Exec(max, schedule + more), id)
  {
    more := ThreeSteps(s, id);
    ExecKeepsInv(max, schedule);
    RunsThrough(max, s, id);
    ExecSnoc(max, schedule, more[0]);
    ExecSnoc(max, schedule + [more[0]], more[1]);
    ExecSnoc(max, schedule + [more[0]] + [more[1]], more[2]);
    assert schedule + more == schedule + [more[0]] + [more[1]] + [more[2]];
  }

  /** A `delete` comes to its first attempt in one step if the key is there, and is over if it is not. */
  lemma DeleteLooks(max: int, s: State, id: CallId)
    requires id in s.calls && s.calls[id].pc.Probe? && s.calls[id].op.Delete?
    ensures var t := Do(max, s, ProbeKey(id));
      && id in t.calls && t == s.(calls := t.calls)
      && t.calls[id].pc == if s.calls[id].op.key in Current(s) then Loop(0) else Absent
  {}

  /** A transaction that raises ends its call: it has swapped nothing and never will. */
  lemma {:induction false} RaisingEndsTheCall(max: int, schedule: seq<Step>, more: seq<Step>, s: State, id: CallId)
    requires s == Exec(max, schedule) && id in s.calls && s.calls[id].pc.Computing?
    ensures var t := Exec(max, schedule + [FnRaises(id)] + more);
      && id in t.calls && t.calls[id].pc.Aborted?
      && forall i :: 0 <= i < |t.log| ==> t.log[i].id != id
  {
    var raised := schedule + [FnRaises(id)];
    ExecSnoc(max, schedule, FnRaises(id));
    assert (raised + more)[..|raised|] == raised;
    ExecLater(max, raised + more, |raised|);
    CommitsDiffer(max, raised + more);
    ExecKeepsInv(max, raised + more);
  }
}
