/** What subscribers are told, and what can be made of it. */
module Events {
  import opened Values
  import opened CasStore
  import opened Registry

  datatype Kind = SetEvent | DeleteEvent | ExpireEvent

  /** One announcement: `fn(key, event, old_value, new_value)`. */
  datatype Event = Event(key: Key, kind: Kind, before: Value, after: Value)

  /** An event as one subscriber was called with it. */
  datatype Delivery = Delivery(id: nat, event: Event)

  /** What a call announces when nobody else writes; `gone` is the kind a `delete` uses. */
  function Announced(op: Op, gone: Kind, m: Contents): seq<Event> {
    match op
    case Mutate(_) => []
    case Set(k, v) => [Event(k, SetEvent, Get(m, k), v)]
    case Mset(d) => SetEvents(d, m)
    case Atomic(k, f, default) => [Event(k, SetEvent, Get(m, k), f(GetOr(m, k, default)))]
    case Delete(k) => if k in m then [Event(k, gone, Get(m, k), Null)] else []
  }

  /** `mset` announces its pairs in order, all with the values read before the swap. */
  function SetEvents(d: seq<(Key, Value)>, m: Contents): seq<Event> {
    seq(|d|, i requires 0 <= i < |d| => Event(d[i].0, SetEvent, Get(m, d[i].0), d[i].1))
  }

  // ---- a replica built from events ----------------------------------------------

  function Follow(m: Contents, e: Event): Contents {
    if e.kind.SetEvent? then m[e.key := e.after] else m - {e.key}
  }

  function FollowAll(m: Contents, events: seq<Event>): Contents {
    if events == [] then m
    else Follow(FollowAll(m, events[..|events| - 1]), events[|events| - 1])
  }

  /** Each event's old value is what the replica holds just before it. */
  ghost predicate Truthful(m: Contents, events: seq<Event>) {
    forall i :: 0 <= i < |events| ==> events[i].before == Get(FollowAll(m, events[..i]), events[i].key)
  }

  lemma {:induction false} FollowConcat(m: Contents, a: seq<Event>, b: seq<Event>)
    ensures FollowAll(m, a + b) == FollowAll(FollowAll(m, a), b)
  {
    if b == [] {
      assert a + b == a;
    } else {
      var n := |b| - 1;
      FollowConcat(m, a, b[..n]);
      assert (a + b)[..|a| + n] == a + b[..n];
    }
  }

  lemma {:induction false} TruthfulConcat(m: Contents, a: seq<Event>, b: seq<Event>)
    requires Truthful(m, a) && Truthful(FollowAll(m, a), b)
    ensures Truthful(m, a + b)
  {
    forall i | 0 <= i < |a + b| ensures (a + b)[i].before == Get(FollowAll(m, (a + b)[..i]), (a + b)[i].key) {
      if i < |a| {
        assert (a + b)[..i] == a[..i];
      } else {
        assert (a + b)[..i] == a + b[..i - |a|];
        FollowConcat(m, a, b[..i - |a|]);
        assert b[i - |a|].before == Get(FollowAll(FollowAll(m, a), b[..i - |a|]), b[i - |a|].key);
      }
    }
  }

  /** Following the first n events of a batch writes its first n pairs. */
  lemma {:induction false} FollowBatch(d: seq<(Key, Value)>, m: Contents, n: nat)
    requires n <= |d|
    ensures FollowAll(m, SetEvents(d, m)[..n]) == SetAll(m, d[..n])
  {
    if n > 0 {
      FollowBatch(d, m, n - 1);
      assert SetEvents(d, m)[..n][..n - 1] == SetEvents(d, m)[..n - 1];
      assert d[..n] == d[..n - 1] + [(d[n - 1].0, d[n - 1].1)];
      SetAllSnoc(m, d[..n - 1], d[n - 1].0, d[n - 1].1);
    } else {
      assert SetEvents(d, m)[..0] == [];
    }
  }

  /** In a batch no key comes twice, so the values read before the swap are the replica's own. */
  lemma BatchIsTruthful(d: Dict, m: Contents)
    ensures Truthful(m, SetEvents(d, m))
  {
    forall i | 0 <= i < |d| ensures Get(m, d[i].0) == Get(FollowAll(m, SetEvents(d, m)[..i]), d[i].0) {
      FollowBatch(d, m, i);
      SetAllIsOverride(m, d[..i]);
      AsMapKeys(d[..i], d[i].0);
    }
  }

  /** One call: the events lead the replica from the old store to the new one. */
  lemma {:induction false} CallIsFollowed(op: Op, gone: Kind, m: Contents)
    requires !op.Mutate? && !gone.SetEvent?
    ensures FollowAll(m, Announced(op, gone, m)) == Effect(op, m)
    ensures Truthful(m, Announced(op, gone, m))
  {
    var events := Announced(op, gone, m);
    if op.Mset? {
      FollowBatch(op.mapping, m, |op.mapping|);
      assert op.mapping[..|op.mapping|] == op.mapping;
      assert events[..|events|] == events;
      BatchIsTruthful(op.mapping, m);
    } else if events != [] {
      assert events[..0] == [] && |events| == 1;
      assert FollowAll(m, events) == Follow(FollowAll(m, []), events[0]);
    }
  }

  // ---- a serial run --------------------------------------------------------------

  /** A call of the run; an expiry is a `delete` that says so. */
  datatype Write = Write(op: Op, gone: Kind)

  ghost predicate Announcing(run: seq<Write>) {
    forall i :: 0 <= i < |run| ==> !run[i].op.Mutate? && !run[i].gone.SetEvent?
  }

  function Outcome(m: Contents, run: seq<Write>): Contents {
    if run == [] then m
    else Effect(run[|run| - 1].op, Outcome(m, run[..|run| - 1]))
  }

  function Stream(m: Contents, run: seq<Write>): seq<Event> {
    if run == [] then []
    else
      var n := |run| - 1;
      Stream(m, run[..n]) + Announced(run[n].op, run[n].gone, Outcome(m, run[..n]))
  }

  lemma RunSnoc(m: Contents, run: seq<Write>, w: Write)
    ensures Outcome(m, run + [w]) == Effect(w.op, Outcome(m, run))
    ensures Stream(m, run + [w]) == Stream(m, run) + Announced(w.op, w.gone, Outcome(m, run))
  {
    assert (run + [w])[..|run|] == run;
  }

  /** Over any serial run the events rebuild the store, and no event misreports what it replaced. */
  lemma {:induction false} StreamRebuildsStore(m: Contents, run: seq<Write>)
    requires Announcing(run)
    ensures FollowAll(m, Stream(m, run)) == Outcome(m, run)
    ensures Truthful(m, Stream(m, run))
  {
    if run != [] {
      var n := |run| - 1;
      StreamRebuildsStore(m, run[..n]);
      CallIsFollowed(run[n].op, run[n].gone, Outcome(m, run[..n]));
      FollowConcat(m, Stream(m, run[..n]), Announced(run[n].op, run[n].gone, Outcome(m, run[..n])));
      TruthfulConcat(m, Stream(m, run[..n]), Announced(run[n].op, run[n].gone, Outcome(m, run[..n])));
    }
  }

  // ---- who hears it -----------------------------------------------------------------

  function ToEach(list: seq<Sub>, e: Event): seq<Delivery> {
    seq(|list|, i requires 0 <= i < |list| => Delivery(list[i].id, e))
  }

  lemma ToEachSnoc(list: seq<Sub>, i: nat, e: Event)
    requires i < |list|
    ensures ToEach(list[..i + 1], e) == ToEach(list[..i], e) + [Delivery(list[i].id, e)]
  {}

  /** `_notify` for each event in turn. */
  function Told(r: Reg, events: seq<Event>): seq<Delivery> {
    if events == [] then []
    else
      var n := |events| - 1;
      Told(r, events[..n]) + ToEach(Audience(r, events[n].key), events[n])
  }

  /** What one subscriber was called with. */
  function Heard(id: nat, deliveries: seq<Delivery>): seq<Event> {
    if deliveries == [] then []
    else
      var n := |deliveries| - 1;
      Heard(id, deliveries[..n]) + if deliveries[n].id == id then [deliveries[n].event] else []
  }

  lemma {:induction false} HeardConcat(id: nat, a: seq<Delivery>, b: seq<Delivery>)
    ensures Heard(id, a + b) == Heard(id, a) + Heard(id, b)
  {
    if b == [] {
      assert a + b == a;
    } else {
      var n := |b| - 1;
      HeardConcat(id, a, b[..n]);
      assert (a + b)[..|a| + n] == a + b[..n];
    }
  }

  ghost predicate HasId(list: seq<Sub>, id: nat) {
    exists i :: 0 <= i < |list| && list[i].id == id
  }

  lemma {:induction false} HeardInList(id: nat, list: seq<Sub>, e: Event)
    requires forall i, j :: 0 <= i < j < |list| ==> list[i].id != list[j].id
    ensures Heard(id, ToEach(list, e)) == if HasId(list, id) then [e] else []
  {
    if list != [] {
      var n := |list| - 1;
      HeardInList(id, list[..n], e);
      assert ToEach(list, e)[..n] == ToEach(list[..n], e);
      assert HasId(list, id) <==> HasId(list[..n], id) || list[n].id == id by {
        if i :| 0 <= i < n && list[i].id == id { assert list[..n][i].id == id; }
      }
    }
  }

  lemma ToldOne(r: Reg, e: Event)
    ensures Told(r, [e]) == ToEach(Audience(r, e.key), e)
  {
    assert [e][..0] == [];
    assert Told(r, [e]) == Told(r, []) + ToEach(Audience(r, e.key), e);
  }

  lemma ToldOneMore(r: Reg, events: seq<Event>, more: seq<Event>)
    requires |more| <= 1
    ensures Told(r, events + more) == Told(r, events) + Told(r, more)
  {
    if more == [] {
      assert events + more == events;
    } else {
      assert more == [more[0]];
      ToldSnoc(r, events, more[0]);
      ToldOne(r, more[0]);
    }
  }

  /** After the first i events, notifying event i has told the first i + 1. */
  lemma ToldNext(r: Reg, before: seq<Delivery>, told: seq<Delivery>, events: seq<Event>, i: nat)
    requires i < |events| && told == before + Told(r, events[..i])
    ensures told + ToEach(Audience(r, events[i].key), events[i]) == before + Told(r, events[..i + 1])
  {
    assert events[..i + 1] == events[..i] + [events[i]];
    ToldSnoc(r, events[..i], events[i]);
  }

  lemma ToldSnoc(r: Reg, events: seq<Event>, e: Event)
    ensures Told(r, events + [e]) == Told(r, events) + ToEach(Audience(r, e.key), e)
  {
    assert (events + [e])[..|events|] == events;
  }

  lemma AudienceIdsDiffer(r: Reg, key: Key)
    requires Registry.Ok(r)
    ensures forall i, j :: 0 <= i < j < |Audience(r, key)| ==> Audience(r, key)[i].id != Audience(r, key)[j].id
  {
    assert Ascending(Listed(r, Some(key))) && Ascending(Listed(r, None));
    assert Apart(Listed(r, Some(key)), Listed(r, None));
  }

  lemma HeardIfThere(list: seq<Sub>, i: nat, e: Event)
    requires forall i, j :: 0 <= i < j < |list| ==> list[i].id != list[j].id
    requires i < |list|
    ensures Heard(list[i].id, ToEach(list, e)) == [e]
  {
    HeardInList(list[i].id, list, e);
  }

  lemma AllKeysHearsOne(r: Reg, x: Sub, e: Event)
    requires Registry.Ok(r) && x in Listed(r, None)
    ensures Heard(x.id, ToEach(Audience(r, e.key), e)) == [e]
  {
    var i :| 0 <= i < |Listed(r, None)| && Listed(r, None)[i] == x;
    AudienceIdsDiffer(r, e.key);
    HeardIfThere(Audience(r, e.key), |Listed(r, Some(e.key))| + i, e);
  }

  lemma HeardStep(r: Reg, id: nat, events: seq<Event>)
    requires events != []
    ensures var n := |events| - 1;
      Heard(id, Told(r, events)) == Heard(id, Told(r, events[..n])) + Heard(id, ToEach(Audience(r, events[n].key), events[n]))
  {
    var n := |events| - 1;
    HeardConcat(id, Told(r, events[..n]), ToEach(Audience(r, events[n].key), events[n]));
  }

  /** Whoever hears each event by itself hears them all. */
  lemma {:induction false} HearsEach(r: Reg, id: nat, events: seq<Event>)
    requires forall i :: 0 <= i < |events| ==> Heard(id, ToEach(Audience(r, events[i].key), events[i])) == [events[i]]
    ensures Heard(id, Told(r, events)) == events
  {
    if events != [] {
      var n := |events| - 1;
      HearsEach(r, id, events[..n]);
      HeardStep(r, id, events);
    }
  }

  /** An all-keys subscriber hears every event exactly once, in order. */
  lemma AllKeysHearsAll(r: Reg, x: Sub, events: seq<Event>)
    requires Registry.Ok(r) && x in Listed(r, None)
    ensures Heard(x.id, Told(r, events)) == events
  {
    forall i | 0 <= i < |events| ensures Heard(x.id, ToEach(Audience(r, events[i].key), events[i])) == [events[i]] {
      AllKeysHearsOne(r, x, events[i]);
    }
    HearsEach(r, x.id, events);
  }

  function OfKey(events: seq<Event>, key: Key): seq<Event> {
    if events == [] then []
    else
      var n := |events| - 1;
      OfKey(events[..n], key) + if events[n].key == key then [events[n]] else []
  }

  lemma InAudienceIffItsKey(r: Reg, key: Key, x: Sub, other: Key)
    requires Registry.Ok(r) && x in Listed(r, Some(key))
    ensures HasId(Audience(r, other), x.id) <==> other == key
  {
    var i :| 0 <= i < |Listed(r, Some(key))| && Listed(r, Some(key))[i] == x;
    assert Apart(Listed(r, Some(key)), Listed(r, None));
    if other == key {
      assert Audience(r, other)[i] == x;
    } else {
      assert Apart(Listed(r, Some(key)), Listed(r, Some(other)));
    }
  }

  lemma OneKeyHearsOne(r: Reg, key: Key, x: Sub, e: Event)
    requires Registry.Ok(r) && x in Listed(r, Some(key))
    ensures Heard(x.id, ToEach(Audience(r, e.key), e)) == if e.key == key then [e] else []
  {
    AudienceIdsDiffer(r, e.key);
    HeardInList(x.id, Audience(r, e.key), e);
    InAudienceIffItsKey(r, key, x, e.key);
  }

  lemma {:induction false} HearsKey(r: Reg, id: nat, key: Key, events: seq<Event>)
    requires forall i :: 0 <= i < |events| ==>
      Heard(id, ToEach(Audience(r, events[i].key), events[i])) == if events[i].key == key then [events[i]] else []
    ensures Heard(id, Told(r, events)) == OfKey(events, key)
  {
    if events != [] {
      HearsKey(r, id, key, events[..|events| - 1]);
      HeardStep(r, id, events);
    }
  }

  /** A subscriber to one key hears that key's events exactly once, in order, and no others. */
  lemma OneKeyHearsItsOwn(r: Reg, key: Key, x: Sub, events: seq<Event>)
    requires Registry.Ok(r) && x in Listed(r, Some(key))
    ensures Heard(x.id, Told(r, events)) == OfKey(events, key)
  {
    forall i | 0 <= i < |events|
      ensures Heard(x.id, ToEach(Audience(r, events[i].key), events[i])) == if events[i].key == key then [events[i]] else []
    {
      OneKeyHearsOne(r, key, x, events[i]);
    }
    HearsKey(r, x.id, key, events);
  }

  /** A replica fed by one all-keys subscription follows the store through any serial run. */
  lemma {:induction false} SubscriberCanRebuildStore(r: Reg, x: Sub, m: Contents, run: seq<Write>)
    requires Registry.Ok(r) && x in Listed(r, None) && Announcing(run)
    ensures FollowAll(m, Heard(x.id, Told(r, Stream(m, run)))) == Outcome(m, run)
    ensures Truthful(m, Heard(x.id, Told(r, Stream(m, run))))
  {
    AllKeysHearsAll(r, x, Stream(m, run));
    StreamRebuildsStore(m, run);
  }
}
