/**
 What `delete` answers. It looks for the key first and answers False at once if
 it is absent; otherwise it goes on to `mutate` and answers True, whether or not
 the key is still there when its own turn comes.
 */
module Deletion {
  import opened Values
  import opened CasStore
  import opened Linearizability

  /** `op` never takes `key` out of a map that has it. */
  ghost predicate Keeps(op: Op, key: Key) {
    forall m: Contents :: key in m ==> key in Effect(op, m)
  }

  /** Of the calls that notify, only a `delete` of that very key can take it out. */
  lemma WhoCanRemove(op: Op, key: Key)
    requires !op.Mutate?
    ensures Keeps(op, key) <==> op != Delete(key)
  {
    forall m: Contents | key in m && op != Delete(key) ensures key in Effect(op, m) {
      if op.Mset? { SetAllIsOverride(m, op.mapping); }
    }
    if op == Delete(key) {
      assert key !in Effect(op, map[key := Null]);
    }
  }

  /** `key` is there once the first k commits are made. */
  ghost predicate There(log: seq<Commit>, k: nat, key: Key)
    requires k <= |log|
  {
    key in Replay(log[..k])
  }

  /** Commit number i takes `key` out, and nothing puts it back before position `at`. */
  ghost predicate TakenOut(log: seq<Commit>, i: nat, at: nat, key: Key)
    requires i < at <= |log|
  {
    There(log, i, key) && forall j :: i < j <= at ==> !There(log, j, key)
  }

  /** A key that was there and is not there any more has been taken out by one last commit. */
  lemma {:induction false} SomeoneTookItOut(log: seq<Commit>, from: nat, at: nat, key: Key) returns (i: nat)
    requires from <= at <= |log| && There(log, from, key) && !There(log, at, key)
    ensures from <= i < at && TakenOut(log, i, at, key)
    decreases at
  {
    if There(log, at - 1, key) {
      i := at - 1;
    } else {
      i := SomeoneTookItOut(log, from, at - 1, key);
    }
  }

  lemma TakerRemoves(log: seq<Commit>, i: nat, at: nat, key: Key)
    requires i < at <= |log| && TakenOut(log, i, at, key)
    ensures !Keeps(log[i].op, key)
  {
    assert log[..i + 1][..i] == log[..i];
    assert !There(log, i + 1, key);
  }

  /** What a `delete` that got past its first look knows, and when it removes the key. */
  ghost predicate AnswersTrue(log: seq<Commit>, c: Call) {
    c.op.Delete? && c.pc.Returned? && c.started <= c.looked <= c.pc.at <= c.ended <= |log|
  }

  /** Its look found the key; it swaps exactly if its own turn finds it too, and then the key is gone. */
  ghost predicate KnowsItsMaps(s: State, c: Call)
    requires HistOk(s)
  {
    && AnswersTrue(s.log, c)
    && c.op.key in s.heap[s.hist[c.looked]]
    && (c.pc.swapped <==> c.op.key in s.heap[s.hist[c.pc.at]])
    && (c.pc.swapped ==> c.pc.at < |s.log| && c.op.key !in s.heap[s.hist[c.pc.at + 1]])
  }

  lemma DeleteKnowsItsMaps(max: int, s: State, id: CallId)
    requires Inv(max, s) && id in s.calls && s.calls[id].pc.Returned? && s.calls[id].op.Delete?
    ensures KnowsItsMaps(s, s.calls[id])
  {
    assert CallOk(max, s, id);
  }

  lemma ThereInHist(s: State, k: nat, key: Key)
    requires HistOk(s) && k <= |s.log|
    ensures There(s.log, k, key) <==> key in s.heap[s.hist[k]]
  {
    HistIsReplay(s, k);
  }

  lemma DeleteKnows(s: State, c: Call)
    requires HistOk(s) && KnowsItsMaps(s, c)
    ensures There(s.log, c.looked, c.op.key)
    ensures c.pc.swapped <==> There(s.log, c.pc.at, c.op.key)
    ensures c.pc.swapped ==> !There(s.log, c.pc.at + 1, c.op.key)
  {
    ThereInHist(s, c.looked, c.op.key);
    ThereInHist(s, c.pc.at, c.op.key);
    if c.pc.swapped { ThereInHist(s, c.pc.at + 1, c.op.key); }
  }

  /** A call's only commit is at its own position. */
  lemma NoEarlierCommit(max: int, s: State, id: CallId, i: nat)
    requires Inv(max, s) && id in s.calls && s.calls[id].pc.Returned? && i < |s.log| && i < s.calls[id].pc.at
    ensures s.log[i].id != id
  {}

  /** Between the look and the call's own position the key was taken out, and not put back. */
  ghost predicate TakenOutMeanwhile(log: seq<Commit>, c: Call)
    requires AnswersTrue(log, c)
  {
    exists i :: c.looked <= i < c.pc.at && TakenOut(log, i, c.pc.at, c.op.key)
  }

  lemma SwapsUnlessTakenOut(s: State, c: Call)
    requires AnswersTrue(s.log, c) && There(s.log, c.looked, c.op.key) && (c.pc.swapped <==> There(s.log, c.pc.at, c.op.key))
    ensures !c.pc.swapped <==> TakenOutMeanwhile(s.log, c)
  {
    AbsentIffTakenOut(s.log, c.looked, c.pc.at, c.op.key);
  }

  /** What the invariant says of a `delete` that answers True. */
  lemma {:induction false} DeleteInRun(max: int, schedule: seq<Step>, id: CallId)
    requires var s := Exec(max, schedule); id in s.calls && s.calls[id].pc.Returned? && s.calls[id].op.Delete?
    ensures var s := Exec(max, schedule); var c := s.calls[id];
      && HistOk(s) && KnowsItsMaps(s, c)
      && (forall i :: c.looked <= i < c.pc.at ==> s.log[i].id != id)
  {
    var s := Exec(max, schedule);
    ExecKeepsInv(max, schedule);
    DeleteKnowsItsMaps(max, s, id);
    forall i | s.calls[id].looked <= i < s.calls[id].pc.at ensures s.log[i].id != id {
      NoEarlierCommit(max, s, id, i);
    }
  }

  lemma DeleteComesOut(s: State, c: Call)
    requires HistOk(s) && KnowsItsMaps(s, c)
    ensures There(s.log, c.looked, c.op.key)
    ensures !c.pc.swapped <==> TakenOutMeanwhile(s.log, c)
    ensures c.pc.swapped ==> There(s.log, c.pc.at, c.op.key) && !There(s.log, c.pc.at + 1, c.op.key)
  {
    DeleteKnows(s, c);
    SwapsUnlessTakenOut(s, c);
  }

  /**
   The exact condition: a `delete` that answers True has not removed the key
   if and only if, between its look and its own position, another call's commit
   took the key out and nobody put it back.
   */
  lemma {:induction false} DeleteFailsIffTakenOut(max: int, schedule: seq<Step>, log: seq<Commit>, id: CallId, c: Call)
    requires var s := Exec(max, schedule); log == s.log && id in s.calls && c == s.calls[id]
    requires c.pc.Returned? && c.op.Delete?
    ensures AnswersTrue(log, c) && There(log, c.looked, c.op.key)
    ensures !c.pc.swapped <==> TakenOutMeanwhile(log, c)
    ensures forall i :: c.looked <= i < c.pc.at ==> log[i].id != id
    ensures c.pc.swapped ==> c.pc.at < |log| && There(log, c.pc.at, c.op.key) && !There(log, c.pc.at + 1, c.op.key)
  {
    DeleteInRun(max, schedule, id);
    DeleteComesOut(Exec(max, schedule), c);
  }

  lemma AbsentIffTakenOut(log: seq<Commit>, from: nat, at: nat, key: Key)
    requires from <= at <= |log| && There(log, from, key)
    ensures !There(log, at, key) <==> exists i :: from <= i < at && TakenOut(log, i, at, key)
  {
    if !There(log, at, key) {
      var i := SomeoneTookItOut(log, from, at, key);
    }
  }

  /** What a caller can rely on: if nobody else takes the key out during the call, True means removed by this call. */
  lemma {:induction false} UncontestedDeleteRemoves(max: int, schedule: seq<Step>, log: seq<Commit>, id: CallId, c: Call)
    requires var s := Exec(max, schedule); log == s.log && id in s.calls && c == s.calls[id]
    requires c.pc.Returned? && c.op.Delete?
    requires forall i :: c.started <= i < c.ended && i < |log| && log[i].id != id ==> Keeps(log[i].op, c.op.key)
    ensures c.pc.swapped
  {
    DeleteFailsIffTakenOut(max, schedule, log, id, c);
    if i :| c.looked <= i < c.pc.at && TakenOut(log, i, c.pc.at, c.op.key) {
      TakerRemoves(log, i, c.pc.at, c.op.key);
      assert false;
    }
  }

  /** False is always right: at the moment of the look, inside the call, the key was absent. */
  lemma {:induction false} FalseIsAlwaysRight(max: int, schedule: seq<Step>, id: CallId)
    requires var s := Exec(max, schedule); id in s.calls && s.calls[id].pc.Absent?
    ensures var s := Exec(max, schedule); var c := s.calls[id];
      && c.op.Delete? && c.started <= c.looked <= c.ended <= |s.log|
      && !There(s.log, c.looked, c.op.key)
  {
    var s := Exec(max, schedule);
    ExecKeepsInv(max, schedule);
    assert CallOk(max, s, id);
    HistIsReplay(s, s.calls[id].looked);
  }

  // ---- True, and nothing removed ------------------------------------------------

  /**
   The store holds `m`; a `delete` of `key` looks and finds it, and before its
   turn a call with `op` swaps.
   */
  function Overtaken(op: Op, m: Contents, key: Key): seq<Step> {
    [Begin(0, Mutate(_ => m)), Read(0), Compute(0, None), Swap(0),
     Begin(1, op), ProbeKey(1), Begin(2, Delete(key)), ProbeKey(2),
     Read(1), Compute(1, None), Swap(1),
     Read(2), Compute(2, Some(2))]
  }

  function StateAfter(op: Op, m: Contents, key: Key, i: nat): State
    requires i <= 13
  {
    Exec(1000, Overtaken(op, m, key)[..i])
  }

  lemma OneStep(op: Op, m: Contents, key: Key, i: nat)
    requires i < 13
    ensures StateAfter(op, m, key, i + 1) == Do(1000, StateAfter(op, m, key, i), Overtaken(op, m, key)[i])
  {
    assert Overtaken(op, m, key)[..i + 1][..i] == Overtaken(op, m, key)[..i];
  }

  lemma MapIsRead(op: Op, m: Contents, key: Key)
    ensures var s := StateAfter(op, m, key, 2);
      && s.heap == [map[]] && s.ref == 0 && |s.log| == 0 && s.calls.Keys == {0}
      && s.calls[0].op == Overtaken(op, m, key)[0].op && s.calls[0].pc == Computing(0, 0, 0)
  {
    assert StateAfter(op, m, key, 0) == INIT;
    OneStep(op, m, key, 0);
    OneStep(op, m, key, 1);
  }

  lemma MapIsComputed(op: Op, m: Contents, key: Key)
    ensures var s := StateAfter(op, m, key, 3);
      && s.heap == [map[], m] && s.ref == 0 && |s.log| == 0 && s.calls.Keys == {0}
      && s.calls[0].pc == Swapping(0, 0, 1, 0)
  {
    MapIsRead(op, m, key);
    OneStep(op, m, key, 2);
  }

  lemma MapIsThere(op: Op, m: Contents, key: Key)
    ensures var s := StateAfter(op, m, key, 4);
      && s.heap == [map[], m] && s.ref == 1 && |s.log| == 1 && s.calls.Keys == {0}
  {
    MapIsComputed(op, m, key);
    OneStep(op, m, key, 3);
  }

  ghost predicate Removes(op: Op, m: Contents, key: Key) {
    key in m && key !in Effect(op, m)
  }

  lemma RemoverIsReady(op: Op, m: Contents, key: Key)
    requires Removes(op, m, key)
    ensures var s := StateAfter(op, m, key, 6);
      && s.heap == [map[], m] && s.ref == 1 && |s.log| == 1 && s.calls.Keys == {0, 1}
      && s.calls[1].op == op && s.calls[1].pc == Loop(0)
  {
    MapIsThere(op, m, key);
    OneStep(op, m, key, 4);
    OneStep(op, m, key, 5);
  }

  ghost predicate Race(s: State, op: Op, key: Key, ref: Addr, pc1: Pc, pc2: Pc) {
    && s.ref == ref && s.calls.Keys == {0, 1, 2}
    && s.calls[1].op == op && s.calls[1].pc == pc1
    && s.calls[2].op == Delete(key) && s.calls[2].pc == pc2 && s.calls[2].looked == 1
  }

  lemma DeleteHasLooked(op: Op, m: Contents, key: Key)
    requires Removes(op, m, key)
    ensures var s := StateAfter(op, m, key, 8);
      Race(s, op, key, 1, Loop(0), Loop(0)) && s.heap == [map[], m] && |s.log| == 1
  {
    RemoverIsReady(op, m, key);
    OneStep(op, m, key, 6);
    OneStep(op, m, key, 7);
  }

  lemma RemoverComputes(op: Op, m: Contents, key: Key)
    requires Removes(op, m, key)
    ensures var s := StateAfter(op, m, key, 10);
      Race(s, op, key, 1, Swapping(0, 1, 2, 1), Loop(0)) && s.heap == [map[], m, Effect(op, m)] && |s.log| == 1
  {
    DeleteHasLooked(op, m, key);
    OneStep(op, m, key, 8);
    OneStep(op, m, key, 9);
  }

  lemma RemoverSwaps(op: Op, m: Contents, key: Key)
    requires Removes(op, m, key)
    ensures var s := StateAfter(op, m, key, 11);
      Race(s, op, key, 2, Returned(2, 1, true), Loop(0)) && s.heap == [map[], m, Effect(op, m)] && |s.log| == 2
  {
    RemoverComputes(op, m, key);
    OneStep(op, m, key, 10);
  }

  /**
   Whatever operation can take the key out of some map can overtake a `delete`,
   which then answers True and has removed nothing. With `Delete(key)` for
   `op`, two calls answer True for one removal.
   */
  lemma AnyRemoverCanOvertake(op: Op, m: Contents, key: Key)
    requires Removes(op, m, key)
    ensures Race(Exec(1000, Overtaken(op, m, key)), op, key, 2, Returned(2, 1, true), Returned(2, 2, false))
  {
    RemoverSwaps(op, m, key);
    OneStep(op, m, key, 11);
    OneStep(op, m, key, 12);
    assert Overtaken(op, m, key)[..13] == Overtaken(op, m, key);
  }
}
