/**
 The software compare-and-swap store under every interleaving of its writers.

 Immutable map objects live at addresses in a heap, so `is` is equality of
 addresses while two objects may hold equal contents. Every read of `_ref`,
 every run of the transaction function and every section under `_swap_lock` is
 one step. A schedule is any sequence of steps of any number of calls; a step
 that its call cannot take leaves the state as it is, so the states
 `Exec(max, schedule)` are exactly the reachable ones.
 */
module CasStore {
  import opened Values

  type Addr = nat
  type CallId = nat

  /** A writing call on the store. */
  datatype Op =
    | Mutate(fn: Contents -> Contents)
    | Set(key: Key, value: Value)
    | Mset(mapping: Dict)
    | Atomic(key: Key, f: Value -> Value, default: Value)
    | Delete(key: Key)

  /** The transaction each call hands to `mutate`. */
  function Effect(op: Op, m: Contents): Contents {
    match op
    case Mutate(fn) => fn(m)
    case Set(k, v) => m[k := v]
    case Mset(d) => SetAll(m, d)
    case Atomic(k, f, default) => m[k := f(GetOr(m, k, default))]
    case Delete(k) => if k in m then m - {k} else m
  }

  /** What the last run of `atomic`'s closure stored in its `box`. */
  datatype Box = Unset | Box(was: Option<Value>, becomes: Value)

  function Stored(op: Op, m: Contents): Box {
    if op.Atomic? then Box(Lookup(m, op.key), op.f(GetOr(m, op.key, op.default))) else Unset
  }

  /** The transaction hands back the very object it was given: nothing to delete, or an empty batch. */
  predicate ReturnsItsArgument(op: Op, m: Contents) {
    (op.Delete? && op.key !in m) || (op.Mset? && op.mapping == [])
  }

  datatype Pc =
    | Probe                                                  // `delete`: is the key there at all?
    | Loop(attempt: nat)                                     // about to read `_ref`
    | Computing(attempt: nat, base: Addr, seen: nat)          // `base` read when the log had length `seen`
    | Swapping(attempt: nat, base: Addr, next: Addr, seen: nat)
    | Returned(snap: Addr, at: nat, swapped: bool)           // takes effect at log position `at`
    | Raised(attempts: nat)                                  // ConflictRetryExceeded
    | Aborted                                                // the transaction function raised
    | Absent                                                 // `delete` found nothing to delete

  predicate Over(pc: Pc) {
    pc.Returned? || pc.Raised? || pc.Aborted? || pc.Absent?
  }

  /**
   `started` and `ended` are the lengths of the log at the call's two ends,
   `looked` its length when `delete` took its first look at the key.
   */
  datatype Call = Call(op: Op, pc: Pc, box: Box, started: nat, looked: nat, ended: nat)

  datatype Commit = Commit(id: CallId, op: Op)

  /** `hist` lists the objects `_ref` has held, `log` the successful swaps between them. */
  datatype State = State(
    heap: seq<Contents>, ref: Addr, hist: seq<Addr>, log: seq<Commit>, calls: map<CallId, Call>)

  const INIT := State([map[]], 0, [0], [], map[])

  function Deref(s: State, a: Addr): Contents {
    if a < |s.heap| then s.heap[a] else map[]
  }

  /** What a lock-free reader sees. */
  function Current(s: State): Contents {
    Deref(s, s.ref)
  }

  /** How often `for attempt in range(max)` goes round. */
  function Attempts(max: int): nat {
    if max < 0 then 0 else max
  }

  datatype Step =
    | Begin(id: CallId, op: Op)
    | ProbeKey(id: CallId)
    | Read(id: CallId)
    | Compute(id: CallId, result: Option<Addr>)   // an object already there, or a fresh one
    | FnRaises(id: CallId)
    | Swap(id: CallId)

  function At(s: State, id: CallId, c: Call, pc: Pc): State {
    s.(calls := s.calls[id := c.(pc := pc, ended := |s.log|)])
  }

  function DoProbe(s: State, id: CallId, c: Call): State {
    if c.pc.Probe? && c.op.Delete? then
      At(s, id, c.(looked := |s.log|), if c.op.key in Current(s) then Loop(0) else Absent)
    else s
  }

  function DoRead(max: int, s: State, id: CallId, c: Call): State {
    if !c.pc.Loop? then s
    else if c.pc.attempt < max then At(s, id, c, Computing(c.pc.attempt, s.ref, |s.log|))
    else At(s, id, c, Raised(c.pc.attempt))
  }

  /** The closure runs on `base` and hands back either an object with the right contents or a new one. */
  function DoCompute(s: State, id: CallId, c: Call, result: Option<Addr>): State {
    if !c.pc.Computing? then s else
      var arg := Deref(s, c.pc.base);
      var out := Effect(c.op, arg);
      var c1 := c.(box := Stored(c.op, arg));
      if ReturnsItsArgument(c.op, arg) && result != Some(c.pc.base) then s else
      match result
      case None =>
        At(s, id, c1, Swapping(c.pc.attempt, c.pc.base, |s.heap|, c.pc.seen)).(heap := s.heap + [out])
      case Some(a) =>
        if a >= |s.heap| || s.heap[a] != out then s
        else if a == c.pc.base then At(s, id, c1, Returned(a, c.pc.seen, false))
        else At(s, id, c1, Swapping(c.pc.attempt, c.pc.base, a, c.pc.seen))
  }

  function DoSwap(s: State, id: CallId, c: Call): State {
    if !c.pc.Swapping? then s
    else if s.ref == c.pc.base then
      var s1 := State(s.heap, c.pc.next, s.hist + [c.pc.next], s.log + [Commit(id, c.op)], s.calls);
      At(s1, id, c, Returned(c.pc.next, |s.log|, true))
    else At(s, id, c, Loop(c.pc.attempt + 1))
  }

  function Do(max: int, s: State, step: Step): State {
    if step.Begin? then
      if step.id in s.calls then s
      else s.(calls := s.calls[step.id :=
        Call(step.op, if step.op.Delete? then Probe else Loop(0), Unset, |s.log|, |s.log|, |s.log|)])
    else if step.id !in s.calls then s
    else
      var c := s.calls[step.id];
      match step
      case ProbeKey(id) => DoProbe(s, id, c)
      case Read(id) => DoRead(max, s, id, c)
      case Compute(id, result) => DoCompute(s, id, c, result)
      case FnRaises(id) => if c.pc.Computing? then At(s, id, c, Aborted) else s
      case Swap(id) => DoSwap(s, id, c)
  }

  /** The state after a whole schedule. */
  function Exec(max: int, schedule: seq<Step>): State {
    if schedule == [] then INIT
    else Do(max, Exec(max, schedule[..|schedule| - 1]), schedule[|schedule| - 1])
  }

  /** The sequential reference: the committed transactions one after another. */
  function Replay(log: seq<Commit>): Contents {
    if log == [] then map[]
    else Effect(log[|log| - 1].op, Replay(log[..|log| - 1]))
  }

  // ---- the invariant ------------------------------------------------

  ghost predicate HistOk(s: State) {
    && |s.hist| == |s.log| + 1
    && s.ref == s.hist[|s.log|]
    && (forall i :: 0 <= i < |s.hist| ==> s.hist[i] < |s.heap|)
    && s.heap[s.hist[0]] == map[]
    && (forall i :: 0 <= i < |s.log| ==>
          s.heap[s.hist[i + 1]] == Effect(s.log[i].op, s.heap[s.hist[i]]))
  }

  /** Each swap belongs to one finished call, which points back at it. */
  ghost predicate LogOk(s: State)
    requires HistOk(s)
  {
    forall i :: 0 <= i < |s.log| ==>
      && s.log[i].id in s.calls
      && s.calls[s.log[i].id].op == s.log[i].op
      && s.calls[s.log[i].id].pc == Returned(s.hist[i + 1], i, true)
  }

  /** What `delete` found decides how it goes on. */
  ghost predicate LookOk(s: State, c: Call)
    requires HistOk(s) && c.looked <= |s.log|
  {
    && (c.pc.Absent? ==> c.op.Delete? && c.op.key !in s.heap[s.hist[c.looked]])
    && (c.op.Delete? && !c.pc.Probe? && !c.pc.Absent? ==> c.op.key in s.heap[s.hist[c.looked]])
  }

  ghost predicate CallOk(max: int, s: State, id: CallId)
    requires HistOk(s) && id in s.calls
  {
    var c := s.calls[id];
    && c.started <= c.looked <= c.ended <= |s.log|
    && LookOk(s, c)
    && match c.pc
       case Loop(a) => a <= Attempts(max) && c.started + a <= c.ended
       case Computing(a, base, seen) =>
         a < max && c.started + a <= seen <= |s.log| && c.looked <= seen && s.hist[seen] == base
       case Swapping(a, base, n, seen) =>
         && a < max && c.started + a <= seen <= |s.log| && c.looked <= seen && s.hist[seen] == base
         && n < |s.heap| && n != base && s.heap[n] == Effect(c.op, s.heap[base])
         && c.box == Stored(c.op, s.heap[base]) && !ReturnsItsArgument(c.op, s.heap[base])
       case Returned(snap, at, swapped) =>
         && c.looked <= at <= c.ended
         && snap < |s.heap| && s.heap[snap] == Effect(c.op, s.heap[s.hist[at]])
         && c.box == Stored(c.op, s.heap[s.hist[at]])
         && (swapped ==> at < c.ended && s.log[at] == Commit(id, c.op) && s.hist[at + 1] == snap)
         && (swapped ==> !ReturnsItsArgument(c.op, s.heap[s.hist[at]]))
         && (!swapped ==> snap == s.hist[at])
       case Raised(a) => a == Attempts(max) && c.started + a <= c.ended
       case _ => true
  }

  ghost predicate Inv(max: int, s: State) {
    HistOk(s) && LogOk(s) && forall id :: id in s.calls ==> CallOk(max, s, id)
  }

  /** Objects are immutable and both the history and the log only grow. */
  ghost predicate Grows(s: State, s': State) {
    s.heap <= s'.heap && s.hist <= s'.hist && s.log <= s'.log
  }

  /** What holds of a call goes on holding while others move. */
  lemma OthersKept(max: int, s: State, s': State, id: CallId)
    requires HistOk(s) && HistOk(s') && Grows(s, s')
    requires id in s.calls && id in s'.calls && s'.calls[id] == s.calls[id] && CallOk(max, s, id)
    ensures CallOk(max, s', id)
  {
    assert forall i :: 0 <= i < |s.hist| ==> s'.hist[i] == s.hist[i];
  }

  /** A step is a step of one call: the invariant need only be shown for that call. */
  lemma OneCallMoves(max: int, s: State, s': State, id: CallId)
    requires Inv(max, s) && HistOk(s') && Grows(s, s') && LogOk(s')
    requires id in s'.calls && CallOk(max, s', id)
    requires s'.calls == s.calls[id := s'.calls[id]]
    ensures Inv(max, s')
  {
    forall i | i in s'.calls ensures CallOk(max, s', i) {
      if i != id { OthersKept(max, s, s', i); }
    }
  }

  lemma ReadKeepsInv(max: int, s: State, id: CallId)
    requires Inv(max, s) && id in s.calls
    ensures Inv(max, DoRead(max, s, id, s.calls[id]))
  {
    assert CallOk(max, s, id);
    if s.calls[id].pc.Loop? {
      OneCallMoves(max, s, DoRead(max, s, id, s.calls[id]), id);
    }
  }

  /** Allocating an object moves nothing that is already there. */
  lemma AllocKeepsHist(s: State, s': State, m: Contents)
    requires HistOk(s) && LogOk(s)
    requires s'.heap == s.heap + [m] && s'.ref == s.ref && s'.hist == s.hist && s'.log == s.log
    requires forall id :: id in s.calls && s.calls[id].pc.Returned? ==> id in s'.calls && s'.calls[id] == s.calls[id]
    ensures HistOk(s') && LogOk(s') && Grows(s, s')
  {
    assert forall i :: 0 <= i < |s'.hist| ==> s'.heap[s'.hist[i]] == s.heap[s.hist[i]];
  }

  lemma FreshResultKeepsInv(max: int, s: State, id: CallId)
    requires Inv(max, s) && id in s.calls && s.calls[id].pc.Computing?
    requires !ReturnsItsArgument(s.calls[id].op, Deref(s, s.calls[id].pc.base))
    ensures Inv(max, DoCompute(s, id, s.calls[id], None))
  {
    var s' := DoCompute(s, id, s.calls[id], None);
    assert CallOk(max, s, id);
    AllocKeepsHist(s, s', Effect(s.calls[id].op, Deref(s, s.calls[id].pc.base)));
    assert CallOk(max, s', id);
    OneCallMoves(max, s, s', id);
  }

  lemma OldResultKeepsInv(max: int, s: State, id: CallId, a: Addr)
    requires Inv(max, s) && id in s.calls && s.calls[id].pc.Computing?
    ensures Inv(max, DoCompute(s, id, s.calls[id], Some(a)))
  {
    var s' := DoCompute(s, id, s.calls[id], Some(a));
    assert CallOk(max, s, id);
    if s' != s { OneCallMoves(max, s, s', id); }
  }

  lemma ComputeKeepsInv(max: int, s: State, id: CallId, result: Option<Addr>)
    requires Inv(max, s) && id in s.calls
    ensures Inv(max, DoCompute(s, id, s.calls[id], result))
  {
    var c := s.calls[id];
    if c.pc.Computing? && !(ReturnsItsArgument(c.op, Deref(s, c.pc.base)) && result != Some(c.pc.base)) {
      if result.None? { FreshResultKeepsInv(max, s, id); } else { OldResultKeepsInv(max, s, id, result.value); }
    }
  }

  lemma WonSwapExtendsHist(s: State, id: CallId)
    requires HistOk(s) && id in s.calls && s.calls[id].pc.Swapping? && s.ref == s.calls[id].pc.base
    requires var pc := s.calls[id].pc; pc.next < |s.heap| && s.heap[pc.next] == Effect(s.calls[id].op, s.heap[pc.base])
    ensures var s' := DoSwap(s, id, s.calls[id]); HistOk(s') && Grows(s, s')
  {}

  /** The swap goes through exactly when `_ref` is the object read, whatever happened in between. */
  lemma WonSwapExtendsLog(max: int, s: State, id: CallId)
    requires Inv(max, s) && id in s.calls && s.calls[id].pc.Swapping? && s.ref == s.calls[id].pc.base
    ensures var s' := DoSwap(s, id, s.calls[id]); HistOk(s') && LogOk(s') && Grows(s, s')
  {
    assert CallOk(max, s, id);
    WonSwapExtendsHist(s, id);
  }

  lemma {:induction false} SwapKeepsInv(max: int, s: State, id: CallId)
    requires Inv(max, s) && id in s.calls
    ensures Inv(max, DoSwap(s, id, s.calls[id]))
  {
    assert CallOk(max, s, id);
    var s' := DoSwap(s, id, s.calls[id]);
    if s.calls[id].pc.Swapping? {
      if s.ref == s.calls[id].pc.base { WonSwapExtendsLog(max, s, id); }
      OneCallMoves(max, s, s', id);
    }
  }

  lemma {:induction false} DoKeepsInv(max: int, s: State, step: Step)
    requires Inv(max, s)
    ensures Inv(max, Do(max, s, step))
  {
    var s' := Do(max, s, step);
    if step.Begin? {
      if step.id !in s.calls { OneCallMoves(max, s, s', step.id); }
    } else if step.id in s.calls {
      var c := s.calls[step.id];
      assert CallOk(max, s, step.id);
      match step
      case Read(id) => ReadKeepsInv(max, s, id);
      case Compute(id, result) => ComputeKeepsInv(max, s, id, result);
      case Swap(id) => SwapKeepsInv(max, s, id);
      case ProbeKey(id) => if c.pc.Probe? && c.op.Delete? { OneCallMoves(max, s, s', id); }
      case FnRaises(id) => if c.pc.Computing? { OneCallMoves(max, s, s', id); }
    }
  }

  lemma {:induction false} ExecKeepsInv(max: int, schedule: seq<Step>)
    ensures Inv(max, Exec(max, schedule))
  {
    if schedule != [] {
      ExecKeepsInv(max, schedule[..|schedule| - 1]);
      DoKeepsInv(max, Exec(max, schedule[..|schedule| - 1]), schedule[|schedule| - 1]);
    }
  }
}
