/**
 The subscriber registry. Every access is one section under `_subs_lock`, so
 an interleaving of `subscribe` and `cancel` is a sequence of `Add` and
 `Remove`. A subscriber list is filed under its key, the list of the all-keys
 subscribers under `None`.
 */
module Registry {
  import opened Values

  type Slot = Option<Key>

  /** A `wait_for` call's `_check`, or any other function. */
  datatype Callback = Check(waiter: nat) | Plain(name: nat)

  datatype Sub = Sub(id: nat, callback: Callback)

  datatype Reg = Reg(subs: map<Slot, seq<Sub>>, next: nat)

  function Empty(): Reg {
    Reg(map[None := []], 0)
  }

  /** `_subs.get(slot, ())`. */
  function Listed(r: Reg, slot: Slot): seq<Sub> {
    if slot in r.subs then r.subs[slot] else []
  }

  /** `subscribe`: the new entry takes the next id and goes to the end of its list. */
  function Add(r: Reg, slot: Slot, callback: Callback): Reg {
    Reg(r.subs[slot := Listed(r, slot) + [Sub(r.next, callback)]], r.next + 1)
  }

  function Without(list: seq<Sub>, id: nat): seq<Sub> {
    if list == [] then []
    else if list[0].id != id then [list[0]] + Without(list[1..], id)
    else Without(list[1..], id)
  }

  /** `_unsubscribe`: the list is rebuilt without `id`, unless there is none. */
  function Remove(r: Reg, slot: Slot, id: nat): Reg {
    if Listed(r, slot) == [] then r
    else r.(subs := r.subs[slot := Without(r.subs[slot], id)])
  }

  /** Who `_notify` calls, in this order. */
  function Audience(r: Reg, key: Key): seq<Sub> {
    Listed(r, Some(key)) + Listed(r, None)
  }

  ghost predicate Ascending(list: seq<Sub>) {
    forall i, j :: 0 <= i < j < |list| ==> list[i].id < list[j].id
  }

  ghost predicate Below(list: seq<Sub>, next: nat) {
    forall i :: 0 <= i < |list| ==> list[i].id < next
  }

  ghost predicate Apart(a: seq<Sub>, b: seq<Sub>) {
    forall i, j :: 0 <= i < |a| && 0 <= j < |b| ==> a[i].id != b[j].id
  }

  /** Ids rise strictly within a list, no two lists share an id, and the next id is free. */
  ghost predicate Ok(r: Reg) {
    && (forall slot: Slot :: Ascending(Listed(r, slot)) && Below(Listed(r, slot), r.next))
    && (forall slot: Slot, other: Slot :: slot != other ==> Apart(Listed(r, slot), Listed(r, other)))
  }

  lemma {:induction false} WithoutMembers(list: seq<Sub>, id: nat)
    ensures forall x :: x in Without(list, id) <==> x in list && x.id != id
  {
    if list != [] {
      WithoutMembers(list[1..], id);
      assert forall x :: x in list <==> x == list[0] || x in list[1..];
    }
  }

  /** What stays keeps its order. */
  lemma {:induction false} WithoutAscends(list: seq<Sub>, id: nat)
    requires Ascending(list)
    ensures Ascending(Without(list, id))
  {
    if list != [] {
      WithoutAscends(list[1..], id);
      WithoutMembers(list[1..], id);
      var rest := Without(list[1..], id);
      forall i | 0 <= i < |rest| ensures list[0].id < rest[i].id {
        assert rest[i] in list[1..];
      }
    }
  }

  lemma {:induction false} WithoutAbsent(list: seq<Sub>, id: nat)
    requires forall i :: 0 <= i < |list| ==> list[i].id != id
    ensures Without(list, id) == list
  {
    if list != [] {
      WithoutAbsent(list[1..], id);
    }
  }

  lemma RemoveListed(r: Reg, slot: Slot, id: nat, other: Slot)
    ensures Listed(Remove(r, slot, id), other)
         == if other == slot then Without(Listed(r, slot), id) else Listed(r, other)
  {}

  /** `cancel` takes out its own id and nothing else, whatever the list. */
  lemma RemoveExactly(r: Reg, slot: Slot, id: nat, other: Slot, x: Sub)
    ensures x in Listed(Remove(r, slot, id), other) <==>
      x in Listed(r, other) && !(other == slot && x.id == id)
  {
    RemoveListed(r, slot, id, other);
    WithoutMembers(Listed(r, slot), id);
  }

  lemma RemoveKeepsOk(r: Reg, slot: Slot, id: nat)
    requires Ok(r)
    ensures Ok(Remove(r, slot, id))
  {
    var r' := Remove(r, slot, id);
    forall a: Slot ensures Ascending(Listed(r', a)) && Below(Listed(r', a), r'.next) {
      RemoveListed(r, slot, id, a);
      WithoutAscends(Listed(r, slot), id);
      forall i | 0 <= i < |Listed(r', a)| ensures Listed(r', a)[i].id < r'.next {
        RemoveExactly(r, slot, id, a, Listed(r', a)[i]);
      }
    }
    forall a: Slot, b: Slot | a != b ensures Apart(Listed(r', a), Listed(r', b)) {
      assert Apart(Listed(r, a), Listed(r, b));
      forall i, j | 0 <= i < |Listed(r', a)| && 0 <= j < |Listed(r', b)|
        ensures Listed(r', a)[i].id != Listed(r', b)[j].id
      {
        RemoveExactly(r, slot, id, a, Listed(r', a)[i]);
        RemoveExactly(r, slot, id, b, Listed(r', b)[j]);
      }
    }
  }

  /** A second removal straight after the first changes nothing. */
  lemma RemoveTwice(r: Reg, slot: Slot, id: nat)
    ensures Remove(Remove(r, slot, id), slot, id) == Remove(r, slot, id)
  {
    var once := Without(Listed(r, slot), id);
    WithoutMembers(Listed(r, slot), id);
    forall i | 0 <= i < |once| ensures once[i].id != id {
      assert once[i] in once;
    }
    WithoutAbsent(once, id);
  }

  lemma AddListed(r: Reg, slot: Slot, callback: Callback, other: Slot)
    ensures Listed(Add(r, slot, callback), other)
         == if other == slot then Listed(r, slot) + [Sub(r.next, callback)] else Listed(r, other)
  {}

  lemma AddKeepsApart(r: Reg, slot: Slot, callback: Callback, a: Slot, b: Slot)
    requires Ok(r) && a != b
    ensures Apart(Listed(Add(r, slot, callback), a), Listed(Add(r, slot, callback), b))
  {
    AddListed(r, slot, callback, a);
    AddListed(r, slot, callback, b);
    assert Apart(Listed(r, a), Listed(r, b));
    assert Below(Listed(r, a), r.next) && Below(Listed(r, b), r.next);
  }

  /** A new subscriber goes to the end of its list with an id no list has held. */
  lemma AddKeepsOk(r: Reg, slot: Slot, callback: Callback)
    requires Ok(r)
    ensures Ok(Add(r, slot, callback))
  {
    var r' := Add(r, slot, callback);
    forall a: Slot ensures Ascending(Listed(r', a)) && Below(Listed(r', a), r'.next) {
      AddListed(r, slot, callback, a);
      assert Ascending(Listed(r, a)) && Below(Listed(r, a), r.next);
    }
    forall a: Slot, b: Slot | a != b ensures Apart(Listed(r', a), Listed(r', b)) {
      AddKeepsApart(r, slot, callback, a, b);
    }
  }

  datatype Access = Subscribe(slot: Slot, callback: Callback) | Cancel(slot: Slot, id: nat)

  function Step(r: Reg, access: Access): Reg {
    match access
    case Subscribe(slot, callback) => Add(r, slot, callback)
    case Cancel(slot, id) => Remove(r, slot, id)
  }

  function After(run: seq<Access>): Reg {
    if run == [] then Empty()
    else Step(After(run[..|run| - 1]), run[|run| - 1])
  }

  /** Over every run of subscriptions and cancellations, ids are unique and rise in every list. */
  lemma {:induction false} AlwaysOk(run: seq<Access>)
    ensures Ok(After(run))
  {
    if run != [] {
      AlwaysOk(run[..|run| - 1]);
      var r := After(run[..|run| - 1]);
      match run[|run| - 1]
      case Subscribe(slot, callback) => AddKeepsOk(r, slot, callback);
      case Cancel(slot, id) => RemoveKeepsOk(r, slot, id);
    }
  }

  /** The id has been issued, and the list no longer has it. */
  ghost predicate Gone(r: Reg, slot: Slot, id: nat) {
    id < r.next && forall x :: x in Listed(r, slot) ==> x.id != id
  }

  lemma StepKeepsGone(r: Reg, access: Access, slot: Slot, id: nat)
    requires Gone(r, slot, id)
    ensures Gone(Step(r, access), slot, id)
  {
    match access
    case Subscribe(other, callback) => AddListed(r, other, callback, slot);
    case Cancel(other, gone) =>
      forall x | x in Listed(Step(r, access), slot) ensures x in Listed(r, slot) {
        RemoveExactly(r, other, gone, slot, x);
      }
  }

  /** No id is issued again: once gone it stays gone, whoever subscribes and cancels. */
  lemma {:induction false} GoneStaysGone(run: seq<Access>, more: seq<Access>, slot: Slot, id: nat)
    requires Gone(After(run), slot, id)
    ensures Gone(After(run + more), slot, id)
  {
    if more == [] {
      assert run + more == run;
    } else {
      var n := |more| - 1;
      GoneStaysGone(run, more[..n], slot, id);
      assert (run + more)[..|run| + n] == run + more[..n];
      StepKeepsGone(After(run + more[..n]), more[n], slot, id);
    }
  }

  /** After one `cancel`, another one some time later, whatever came between, finds nothing to remove. */
  lemma {:induction false} CancelIsForGood(run: seq<Access>, more: seq<Access>, slot: Slot, id: nat)
    requires id < After(run).next
    ensures var r := After(run + [Cancel(slot, id)] + more); Gone(r, slot, id) && Remove(r, slot, id) == r
  {
    var cancelled := run + [Cancel(slot, id)];
    assert cancelled[..|run|] == run;
    forall x | x in Listed(After(cancelled), slot) ensures x.id != id {
      RemoveExactly(After(run), slot, id, slot, x);
    }
    GoneStaysGone(cancelled, more, slot, id);
    WithoutAbsent(Listed(After(cancelled + more), slot), id);
  }

  /** No subscriber is told twice about one event; the key's own subscribers come first, each list in the order of subscription. */
  lemma AudienceHearsOnce(run: seq<Access>, key: Key, i: nat, j: nat)
    requires i < j < |Audience(After(run), key)|
    ensures var all := Audience(After(run), key); var targeted := Listed(After(run), Some(key));
      && all[i].id != all[j].id
      && (i < |targeted| ==> all[i] == targeted[i])
      && (j < |targeted| || |targeted| <= i ==> all[i].id < all[j].id)
      && (|targeted| <= j ==> all[j] == Listed(After(run), None)[j - |targeted|])
  {
    AlwaysOk(run);
    var r := After(run);
    assert Ascending(Listed(r, Some(key))) && Ascending(Listed(r, None));
    assert Apart(Listed(r, Some(key)), Listed(r, None));
  }
}
