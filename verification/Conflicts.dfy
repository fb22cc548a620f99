/** How often a call loses, counted on the schedule, decides whether it raises. */
module Conflicts {
  import opened Values
  import opened CasStore

  /** With this step call `id` compares and finds another object in `_ref` than the one it read. */
  ghost predicate Loses(s: State, step: Step, id: CallId) {
    step.Swap? && step.id == id && id in s.calls && s.calls[id].pc.Swapping? && s.ref != s.calls[id].pc.base
  }

  /** The comparisons call `id` has lost. */
  ghost function Losses(max: int, schedule: seq<Step>, id: CallId): nat {
    if schedule == [] then 0
    else
      var n := |schedule| - 1;
      Losses(max, schedule[..n], id) + if Loses(Exec(max, schedule[..n]), schedule[n], id) then 1 else 0
  }

  /** What a call's losses say about where it is. */
  ghost predicate Fits(max: int, pc: Pc, losses: nat) {
    match pc
    case Probe => losses == 0
    case Loop(a) => a == losses <= Attempts(max)
    case Computing(a, _, _) => a == losses < max
    case Swapping(a, _, _, _) => a == losses < max
    case Returned(_, _, _) => losses < max
    case Raised(a) => a == losses == Attempts(max)
    case Aborted => losses < max
    case Absent => losses == 0
  }

  ghost predicate CallFits(max: int, s: State, id: CallId, losses: nat) {
    if id in s.calls then Fits(max, s.calls[id].pc, losses) else losses == 0
  }

  lemma ComputeFits(max: int, s: State, id: CallId, result: Option<Addr>, losses: nat)
    requires id in s.calls && Fits(max, s.calls[id].pc, losses)
    ensures CallFits(max, DoCompute(s, id, s.calls[id], result), id, losses)
  {}

  lemma SwapFits(max: int, s: State, id: CallId, losses: nat)
    requires id in s.calls && Fits(max, s.calls[id].pc, losses)
    ensures CallFits(max, DoSwap(s, id, s.calls[id]), id, losses + if Loses(s, Swap(id), id) then 1 else 0)
  {}

  lemma OwnStepFits(max: int, s: State, step: Step, losses: nat)
    requires CallFits(max, s, step.id, losses)
    ensures CallFits(max, Do(max, s, step), step.id, losses + if Loses(s, step, step.id) then 1 else 0)
  {
    if step.id in s.calls {
      match step
      case Compute(id, result) => ComputeFits(max, s, id, result, losses);
      case Swap(id) => SwapFits(max, s, id, losses);
      case _ =>
    }
  }

  lemma OthersStay(max: int, s: State, step: Step, id: CallId)
    requires id != step.id
    ensures id in Do(max, s, step).calls <==> id in s.calls
    ensures id in s.calls ==> Do(max, s, step).calls[id] == s.calls[id]
  {}

  lemma StepFits(max: int, s: State, step: Step, id: CallId, losses: nat)
    requires CallFits(max, s, id, losses)
    ensures CallFits(max, Do(max, s, step), id, losses + if Loses(s, step, id) then 1 else 0)
  {
    if id == step.id { OwnStepFits(max, s, step, losses); } else { OthersStay(max, s, step, id); }
  }

  lemma {:induction false} LossesFit(max: int, schedule: seq<Step>, id: CallId)
    ensures CallFits(max, Exec(max, schedule), id, Losses(max, schedule, id))
  {
    if schedule != [] {
      var n := |schedule| - 1;
      LossesFit(max, schedule[..n], id);
      StepFits(max, Exec(max, schedule[..n]), schedule[n], id, Losses(max, schedule[..n], id));
    }
  }

  /**
   Each lost comparison uses up one attempt: a call raises exactly when it has
   lost `max_retries` of them, and one that returned has lost fewer.
   */
  lemma {:induction false} LossesDecide(max: int, schedule: seq<Step>, s: State, id: CallId)
    requires s == Exec(max, schedule) && id in s.calls
    ensures s.calls[id].pc.Raised? ==> Losses(max, schedule, id) == Attempts(max)
    ensures s.calls[id].pc.Returned? ==> Losses(max, schedule, id) < max
    // and at its next read it goes on or raises accordingly
    ensures s.calls[id].pc.Loop? ==> id in Do(max, s, Read(id)).calls
    ensures s.calls[id].pc.Loop? ==>
      (Do(max, s, Read(id)).calls[id].pc.Raised? <==> Losses(max, schedule, id) == Attempts(max))
    ensures s.calls[id].pc.Loop? ==>
      (Do(max, s, Read(id)).calls[id].pc.Computing? <==> Losses(max, schedule, id) < Attempts(max))
  {
    LossesFit(max, schedule, id);
  }

  // ---- it does happen ---------------------------------------------------------

  const MINE: Op := Set("a", Obj(1))
  const THEIRS: Op := Set("a", Obj(2))

  /** With one attempt allowed, one rival swap is enough. */
  const GIVING_UP: seq<Step> := [
    Begin(0, MINE), Begin(1, THEIRS), Read(0), Compute(0, None),
    Read(1), Compute(1, None), Swap(1), Swap(0), Read(0)]

  lemma GivingUpStep(i: nat)
    requires i < |GIVING_UP|
    ensures Exec(1, GIVING_UP[..i + 1]) == Do(1, Exec(1, GIVING_UP[..i]), GIVING_UP[i])
  {
    assert GIVING_UP[..i + 1][..i] == GIVING_UP[..i];
  }

  ghost predicate Stands(s: State, ref: Addr, pc0: Pc, pc1: Pc) {
    && s.ref == ref && s.calls.Keys == {0, 1}
    && s.calls[0].op == MINE && s.calls[1].op == THEIRS
    && s.calls[0].pc == pc0 && s.calls[1].pc == pc1
  }

  lemma BothBegin()
    ensures var s := Exec(1, GIVING_UP[..2]); Stands(s, 0, Loop(0), Loop(0)) && s.heap == [map[]] && |s.log| == 0
  {
    assert Exec(1, GIVING_UP[..0]) == INIT;
    GivingUpStep(0);
    GivingUpStep(1);
  }

  lemma MineReads()
    ensures var s := Exec(1, GIVING_UP[..3]);
      Stands(s, 0, Computing(0, 0, 0), Loop(0)) && s.heap == [map[]] && |s.log| == 0
  {
    BothBegin();
    GivingUpStep(2);
  }

  lemma MineComputes()
    ensures var s := Exec(1, GIVING_UP[..4]);
      Stands(s, 0, Swapping(0, 0, 1, 0), Loop(0)) && |s.heap| == 2 && s.heap[0] == map[] && |s.log| == 0
  {
    MineReads();
    GivingUpStep(3);
  }

  lemma TheirsComputes()
    ensures var s := Exec(1, GIVING_UP[..6]); Stands(s, 0, Swapping(0, 0, 1, 0), Swapping(0, 0, 2, 0))
  {
    MineComputes();
    GivingUpStep(4);
    GivingUpStep(5);
  }

  lemma MineGivesUp()
    ensures var s := Exec(1, GIVING_UP); 0 in s.calls && s.calls[0].pc == Raised(1)
  {
    TheirsComputes();
    GivingUpStep(6);
    assert Exec(1, GIVING_UP[..7]).ref == 2;
    GivingUpStep(7);
    GivingUpStep(8);
    assert GIVING_UP[..9] == GIVING_UP;
  }
}
