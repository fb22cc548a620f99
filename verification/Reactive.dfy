/**
 The store object as its callers drive it: snapshots are objects compared by
 identity, `mutate` is its retry loop, and every write ends in `_notify`.
 */
module Reactive {
  import opened Values
  import opened CasStore
  import opened Registry
  import opened Events

  /** One immutable map object. */
  class Snapshot {
    const contents: Contents

    constructor (contents: Contents)
      ensures this.contents == contents
    {
      this.contents := contents;
    }
  }

  /** The object `mutate` returned, `ConflictRetryExceeded`, or what the transaction raised. */
  datatype Result = Won(snapshot: Snapshot) | GaveUp | FnRaised

  /**
   What a call cannot know: `early[i]` lists the objects other threads swap in
   after its read number i of `_ref` before it comes to `mutate`, `rivals[i]` those
   between attempt i's read and its comparison, `known` the objects its
   transaction may hand back again, `raisesAt` the attempt in which it raises.
   */
  datatype Others = Others(
    early: seq<seq<Snapshot>>, rivals: seq<seq<Snapshot>>, known: seq<Snapshot>, raisesAt: Option<nat>)

  const NOBODY := Others([], [], [], None)

  /** What `_ref` holds when attempt i's comparison is made, if the attempt read `base`. */
  function AfterRivals(base: Snapshot, rivals: seq<seq<Snapshot>>, i: nat): Snapshot {
    if i < |rivals| && rivals[i] != [] then rivals[i][|rivals[i]| - 1] else base
  }

  /** What attempt i reads, if all before it lost. */
  function ReadBy(start: Snapshot, rivals: seq<seq<Snapshot>>, i: nat): Snapshot {
    if i == 0 then start else AfterRivals(ReadBy(start, rivals, i - 1), rivals, i - 1)
  }

  /** Attempt i finds another object in `_ref` than the one it read. */
  predicate Lost(start: Snapshot, rivals: seq<seq<Snapshot>>, i: nat) {
    AfterRivals(ReadBy(start, rivals, i), rivals, i) != ReadBy(start, rivals, i)
  }

  /** What `mutate` did, from `start` in `_ref` to `end`, with `won` attempts lost before its last. */
  ghost predicate Did(op: Op, start: Snapshot, others: Others, max: int, end: Snapshot, result: Result, won: nat) {
    && won <= Attempts(max)
    && (forall i :: 0 <= i < won ==> Lost(start, others.rivals, i) && others.raisesAt != Some(i))
    && var base := ReadBy(start, others.rivals, won);
    match result
    case GaveUp => won == Attempts(max) && end == base
    case FnRaised => won < Attempts(max) && others.raisesAt == Some(won) && end == base
    case Won(snapshot) =>
      && won < Attempts(max) && others.raisesAt != Some(won)
      && snapshot.contents == Effect(op, base.contents)
      && (ReturnsItsArgument(op, base.contents) ==> snapshot == base)
      && (snapshot == base ==> end == AfterRivals(base, others.rivals, won))
      && (snapshot != base ==> !Lost(start, others.rivals, won) && end == snapshot)
  }

  /** With nobody else about, the first attempt wins, if there is one. */
  lemma DidAlone(op: Op, start: Snapshot, max: int, end: Snapshot, result: Result, won: nat)
    requires Did(op, start, NOBODY, max, end, result, won)
    ensures won == 0
    ensures if max > 0 then result == Won(end) && end.contents == Effect(op, start.contents) else result == GaveUp && end == start
  {
    assert !Lost(start, NOBODY.rivals, 0);
  }

  /** One `mutate` after another with nobody else about: the second function works on what the first left. */
  lemma MutateTwiceAlone(
    f: Contents -> Contents, g: Contents -> Contents, max: int, a: Snapshot, b: Snapshot, c: Snapshot,
    first: Result, firstWon: nat, second: Result, secondWon: nat)
    requires max > 0
    requires Did(Mutate(f), a, NOBODY, max, b, first, firstWon) && Did(Mutate(g), b, NOBODY, max, c, second, secondWon)
    ensures first == Won(b) && second == Won(c) && c.contents == g(f(a.contents))
  {
    DidAlone(Mutate(f), a, max, b, first, firstWon);
    DidAlone(Mutate(g), b, max, c, second, secondWon);
  }

  /** How often a call reads `_ref` before it comes to `mutate`. */
  function Looks(op: Op): nat {
    match op
    case Set(_, _) => 1
    case Mset(d) => |d|
    case Delete(_) => 2
    case _ => 0
  }

  /** What is in `_ref` when `mutate` begins, if it was `first` when the call did. */
  function Start(op: Op, first: Snapshot, others: Others): Snapshot {
    ReadBy(first, others.early, Looks(op))
  }

  /**
   What a call that won announces: `set`, `mset` and `delete` the old values they
   happened to see on the way, `atomic` the one its winning attempt worked on.
   */
  function Reported(op: Op, gone: Kind, first: Snapshot, others: Others, won: nat): seq<Event> {
    match op
    case Mutate(_) => []
    case Set(k, v) => [Event(k, SetEvent, Get(first.contents, k), v)]
    case Mset(d) => BatchEvents(d, OldsSeen(d, first, others))
    case Atomic(k, f, default) =>
      var base := ReadBy(Start(op, first, others), others.rivals, won).contents;
      [Event(k, SetEvent, Get(base, k), f(GetOr(base, k, default)))]
    case Delete(k) => [Event(k, gone, Get(ReadBy(first, others.early, 1).contents, k), Null)]
  }

  /** The old value of pair i as `mset` sees it. */
  function OldSeen(d: Dict, first: Snapshot, others: Others, i: nat): Value
    requires i < |d|
  {
    Get(ReadBy(first, others.early, i).contents, d[i].0)
  }

  function OldsSeen(d: Dict, first: Snapshot, others: Others): seq<Value> {
    seq(|d|, i requires 0 <= i < |d| => OldSeen(d, first, others, i))
  }

  function BatchEvents(d: Dict, olds: seq<Value>): seq<Event>
    requires |olds| == |d|
  {
    seq(|d|, i requires 0 <= i < |d| => Event(d[i].0, SetEvent, olds[i], d[i].1))
  }

  /** One set event for each pair, in order, with its value and the old value that its own look saw. */
  ghost predicate IsBatchNews(events: seq<Event>, d: Dict, first: Snapshot, others: Others) {
    && |events| == |d|
    && forall i :: 0 <= i < |d| ==>
         && events[i].key == d[i].0 && events[i].kind == SetEvent && events[i].after == d[i].1
         && events[i].before == Get(ReadBy(first, others.early, i).contents, d[i].0)
  }

  lemma BatchIsNews(d: Dict, first: Snapshot, others: Others)
    ensures IsBatchNews(BatchEvents(d, OldsSeen(d, first, others)), d, first, others)
  {}

  lemma {:induction false} NobodyMoves(first: Snapshot, i: nat)
    ensures ReadBy(first, [], i) == first
  {
    if i > 0 { NobodyMoves(first, i - 1); }
  }

  /** With nobody else about, what is announced is what a serial run announces. */
  lemma ReportedAlone(op: Op, gone: Kind, first: Snapshot)
    requires op.Delete? ==> op.key in first.contents
    ensures Start(op, first, NOBODY) == first
    ensures Reported(op, gone, first, NOBODY, 0) == Announced(op, gone, first.contents)
  {
    NobodyMoves(first, Looks(op));
    NobodyMoves(first, 1);
    if op.Mset? {
      forall i | 0 <= i < |op.mapping|
        ensures Reported(op, gone, first, NOBODY, 0)[i] == Announced(op, gone, first.contents)[i]
      {
        NobodyMoves(first, i);
      }
    }
  }

  /** What was in `_ref`, and whom subscribers had been called, at a call's two ends. */
  datatype Ends = Ends(first: Snapshot, told: seq<Delivery>, last: Snapshot, toldLast: seq<Delivery>)

  /** What a call leaves behind: `mutate` done from where it began, and its events heard by their audience. */
  ghost predicate Wrote(op: Op, gone: Kind, others: Others, max: int, r: Reg, ends: Ends, result: Result, won: nat) {
    && Did(op, Start(op, ends.first, others), others, max, ends.last, result, won)
    && ends.toldLast == ends.told + if result.Won? then Told(r, Reported(op, gone, ends.first, others, won)) else []
  }

  /** A call that tells one event is done as soon as its audience has been called with it. */
  lemma WroteOne(op: Op, gone: Kind, others: Others, max: int, r: Reg, ends: Ends, result: Result, won: nat, e: Event)
    requires Did(op, Start(op, ends.first, others), others, max, ends.last, result, won)
    requires Reported(op, gone, ends.first, others, won) == [e]
    requires ends.toldLast == if result.Won? then ends.told + ToEach(Audience(r, e.key), e) else ends.told
    ensures Wrote(op, gone, others, max, r, ends, result, won)
  {
    ToldOne(r, e);
  }

  /** `delete` looks twice before it comes to `mutate`. */
  lemma DeleteLooks(key: Key, first: Snapshot, others: Others)
    ensures ReadBy(first, others.early, 1) == AfterRivals(first, others.early, 0)
    ensures Start(Delete(key), first, others) == ReadBy(first, others.early, 2)
    ensures ReadBy(first, others.early, 2) == AfterRivals(AfterRivals(first, others.early, 0), others.early, 1)
  {
    assert ReadBy(first, others.early, 0) == first;
    assert ReadBy(first, others.early, 2) == AfterRivals(ReadBy(first, others.early, 1), others.early, 1);
  }

  lemma DeleteTakesOut(key: Key, m: Contents)
    ensures Effect(Delete(key), m) == m - {key}
  {}

  lemma WroteBatch(d: Dict, others: Others, max: int, r: Reg, ends: Ends, result: Result, won: nat)
    requires Did(Mset(d), Start(Mset(d), ends.first, others), others, max, ends.last, result, won)
    requires ends.toldLast == if result.Won? then ends.told + Told(r, BatchEvents(d, OldsSeen(d, ends.first, others))) else ends.told
    ensures Wrote(Mset(d), DeleteEvent, others, max, r, ends, result, won)
    ensures result.Won? ==>
      exists events :: IsBatchNews(events, d, ends.first, others) && ends.toldLast == ends.told + Told(r, events)
    ensures result.Won? ==>
      result.snapshot.contents == ReadBy(ReadBy(ends.first, others.early, |d|), others.rivals, won).contents + AsMap(d)
  {
    if result.Won? {
      BatchIsNews(d, ends.first, others);
      SetAllIsOverride(ReadBy(Start(Mset(d), ends.first, others), others.rivals, won).contents, d);
    }
  }

  /** With nobody else about, a call does what it does in a serial run. */
  lemma WroteAlone(op: Op, gone: Kind, max: int, r: Reg, ends: Ends, result: Result, won: nat)
    requires Wrote(op, gone, NOBODY, max, r, ends, result, won) && (op.Delete? ==> op.key in ends.first.contents)
    ensures won == 0
    ensures if max > 0
            then result == Won(ends.last) && ends.last.contents == Effect(op, ends.first.contents)
              && ends.toldLast == ends.told + Told(r, Announced(op, gone, ends.first.contents))
            else result == GaveUp && ends.last == ends.first && ends.toldLast == ends.told
  {
    ReportedAlone(op, gone, ends.first);
    DidAlone(op, ends.first, max, ends.last, result, won);
  }

  /**
   A rival swaps `x` in between the read and the comparison of an `atomic`'s first
   attempt, which had something to change: the call works on `x` and announces
   the value `x` held.
   */
  lemma AtomicOvertakenOnce(
    key: Key, f: Value -> Value, default: Value, x: Snapshot, max: int, r: Reg, ends: Ends, result: Result, won: nat)
    requires max > 1 && x != ends.first
    requires Lookup(ends.first.contents, key) != Some(f(GetOr(ends.first.contents, key, default)))
    requires Wrote(Atomic(key, f, default), DeleteEvent, Others([], [[x]], [], None), max, r, ends, result, won)
    ensures var value := f(GetOr(x.contents, key, default));
      && won == 1 && result == Won(ends.last) && ends.last.contents == x.contents[key := value]
      && ends.toldLast == ends.told + ToEach(Audience(r, key), Event(key, SetEvent, Get(x.contents, key), value))
  {
    var others := Others([], [[x]], [], None);
    assert ReadBy(ends.first, others.rivals, 0) == ends.first;
    assert Lost(ends.first, others.rivals, 0);
    assert ReadBy(ends.first, others.rivals, 1) == x;
    assert !Lost(ends.first, others.rivals, 1);
    ToldOne(r, Event(key, SetEvent, Get(x.contents, key), f(GetOr(x.contents, key, default))));
  }

  class ReactiveStore {
    var ref: Snapshot
    const maxRetries: int
    var subs: map<Slot, seq<Sub>>
    var nextSubId: nat
    var delivered: seq<Delivery>   // every call of a subscriber so far, in order
    var logged: nat                // how many of them raised

    constructor (maxRetries: int)
      ensures ref.contents == map[] && this.maxRetries == maxRetries
      ensures Registered() == Empty() && delivered == []
      ensures fresh(ref)
    {
      this.maxRetries := maxRetries;
      ref := new Snapshot(map[]);
      subs := map[None := []];
      nextSubId := 0;
      delivered := [];
      logged := 0;
    }

    function Now(): Contents
      reads this
    {
      ref.contents
    }

    function Registered(): Reg
      reads this
    {
      Reg(subs, nextSubId)
    }

    method GetValue(key: Key, default: Value) returns (value: Value)
      ensures value == GetOr(Now(), key, default)
    {
      value := if key in ref.contents then ref.contents[key] else default;
    }

    // ---- the retry loop -------------------------------------------------------

    /** The transaction of `mset`: one `m.set` per pair. */
    static method RunBatch(mapping: Dict, m: Contents) returns (out: Contents)
      ensures out == Effect(Mset(mapping), m)
    {
      out := m;
      for i := 0 to |mapping|
        invariant out == SetAll(m, mapping[..i])
      {
        SetAllSnoc(m, mapping[..i], mapping[i].0, mapping[i].1);
        assert mapping[..i + 1] == mapping[..i] + [(mapping[i].0, mapping[i].1)];
        out := out[mapping[i].0 := mapping[i].1];
      }
      assert mapping[..|mapping|] == mapping;
    }

    /** One run of the transaction function; `atomic`'s closure also fills its `box`. */
    static method RunTransaction(op: Op, m: Contents) returns (out: Contents, box: Box)
      ensures out == Effect(op, m) && box == Stored(op, m)
      ensures op.Mutate? ==> out == op.fn(m)
    {
      box := Unset;
      match op
      case Mutate(fn) => out := fn(m);
      case Set(k, v) => out := m[k := v];
      case Mset(d) => out := RunBatch(d, m);
      case Atomic(k, f, default) =>
        var current := GetOr(m, k, default);
        var value := f(current);
        box := Box(Lookup(m, k), value);
        out := m[k := value];
      case Delete(k) => out := if k in m then m - {k} else m;
    }

    /**
     `mutate`. The first attempt that has nothing to swap, or whose comparison
     finds the object it read, wins; its result is the transaction applied to
     that object. If every attempt loses, the call gives up; if the transaction
     raises, the call ends there. In both cases it has changed nothing.
     */
    method Mutate(op: Op, others: Others) returns (result: Result, box: Box, ghost won: nat)
      modifies this`ref
      ensures Did(op, old(ref), others, maxRetries, ref, result, won)
      ensures result.Won? ==> box == Stored(op, ReadBy(old(ref), others.rivals, won).contents)
      ensures result.Won? ==> result.snapshot.contents == Effect(op, ReadBy(old(ref), others.rivals, won).contents)
      ensures result.Won? && op.Mutate? ==> result.snapshot.contents == op.fn(ReadBy(old(ref), others.rivals, won).contents)
    {
      box := Unset;
      won := 0;
      var attempt := 0;
      while attempt < maxRetries
        invariant 0 <= attempt <= Attempts(maxRetries) && won == attempt
        invariant ref == ReadBy(old(ref), others.rivals, attempt)
        invariant forall i :: 0 <= i < attempt ==> Lost(old(ref), others.rivals, i) && others.raisesAt != Some(i)
      {
        var base := ref;
        if others.raisesAt == Some(attempt) { return FnRaised, box, won; }
        var next;
        next, box := RunOn(op, base, others.known);
        ref := AfterRivals(base, others.rivals, attempt);
        if next == base {
          return Won(base), box, won;
        }
        if ref == base {
          ref := next;
          return Won(next), box, won;
        }
        attempt := attempt + 1;
        won := attempt;
      }
      result := GaveUp;
    }

    /**
     The object a transaction returns: its argument if there is nothing to do,
     otherwise the argument, an object it knows from before, or a new one.
     */
    static method RunOn(op: Op, base: Snapshot, known: seq<Snapshot>) returns (next: Snapshot, box: Box)
      ensures next.contents == Effect(op, base.contents) && box == Stored(op, base.contents)
      ensures next == base || next in known || fresh(next)
      ensures ReturnsItsArgument(op, base.contents) ==> next == base
      ensures op.Mutate? ==> next.contents == op.fn(base.contents)
    {
      var out;
      out, box := RunTransaction(op, base.contents);
      var keeps, i := *, *;
      if ReturnsItsArgument(op, base.contents) || (keeps && out == base.contents) {
        next := base;
      } else if 0 <= i < |known| && known[i].contents == out {
        next := known[i];
      } else {
        next := new Snapshot(out);
      }
    }

    // ---- subscriptions and notification ------------------------------------------

    method Subscribe(slot: Slot, callback: Callback) returns (sub: Subscription)
      modifies this`subs, this`nextSubId
      ensures Registered() == Add(old(Registered()), slot, callback)
      ensures fresh(sub) && sub.store == this && sub.slot == slot && sub.id == old(nextSubId) && !sub.cancelled
    {
      var id := nextSubId;
      nextSubId := nextSubId + 1;
      var list := if slot in subs then subs[slot] else [];
      subs := subs[slot := list + [Sub(id, callback)]];
      sub := new Subscription(this, slot, id);
    }

    method Unsubscribe(slot: Slot, id: nat)
      modifies this`subs
      ensures Registered() == Remove(old(Registered()), slot, id)
    {
      if slot in subs && subs[slot] != [] {
        var kept := [];
        var list := subs[slot];
        for i := 0 to |list|
          invariant kept + Without(list[i..], id) == Without(list, id)
        {
          assert list[i..][1..] == list[i + 1..];
          if list[i].id != id { kept := kept + [list[i]]; }
        }
        assert kept + [] == kept;
        subs := subs[slot := kept];
      }
    }

    /** `_notify`: everyone captured is called once, in order, whichever of them raise. */
    method Notify(e: Event)
      modifies this`delivered, this`logged
      ensures delivered == old(delivered) + ToEach(Audience(Registered(), e.key), e)
    {
      var targeted := if Some(e.key) in subs then subs[Some(e.key)] else [];
      var general := if None in subs then subs[None] else [];
      var all := targeted + general;
      for i := 0 to |all|
        invariant delivered == old(delivered) + ToEach(all[..i], e)
      {
        ToEachSnoc(all, i, e);
        delivered := delivered + [Delivery(all[i].id, e)];
        var raises := *;
        if raises { logged := logged + 1; }
      }
      assert all[..|all|] == all;
    }

    // ---- the writing calls, whatever others do ------------------------------------

    method SetValue(key: Key, value: Value, others: Others) returns (result: Result, ghost won: nat)
      modifies this`ref, this`delivered, this`logged
      ensures Wrote(Set(key, value), DeleteEvent, others, maxRetries, Registered(),
                    Ends(old(ref), old(delivered), ref, delivered), result, won)
      ensures result.Won? ==>
        && result.snapshot.contents == ReadBy(ReadBy(old(ref), others.early, 1), others.rivals, won).contents[key := value]
        && delivered == old(delivered)
                      + ToEach(Audience(Registered(), key), Event(key, SetEvent, Get(old(Now()), key), value))
      ensures !result.Won? ==> delivered == old(delivered)
    {
      var before := if key in ref.contents then ref.contents[key] else Null;
      ref := AfterRivals(ref, others.early, 0);
      ghost var start := ref;
      assert start == ReadBy(old(ref), others.early, 1) == Start(Set(key, value), old(ref), others);
      var box;
      result, box, won := Mutate(Set(key, value), others);
      if result.Won? { Notify(Event(key, SetEvent, before, value)); }
      WroteOne(Set(key, value), DeleteEvent, others, maxRetries, Registered(), Ends(old(ref), old(delivered), ref, delivered),
               result, won, Event(key, SetEvent, before, value));
    }

    /** The first loop of `mset`: the old values, each from another look at `_ref`. */
    method OldValues(mapping: Dict, others: Others) returns (olds: seq<Value>)
      modifies this`ref
      ensures ref == Start(Mset(mapping), old(ref), others)
      ensures olds == OldsSeen(mapping, old(ref), others)
    {
      olds := [];
      for i := 0 to |mapping|
        invariant ref == ReadBy(old(ref), others.early, i)
        invariant |olds| == i
        invariant forall j :: 0 <= j < i ==> olds[j] == OldSeen(mapping, old(ref), others, j)
      {
        assert OldSeen(mapping, old(ref), others, i) == Get(ref.contents, mapping[i].0);
        olds := olds + [Get(ref.contents, mapping[i].0)];
        ref := AfterRivals(ref, others.early, i);
      }
    }

    /** The last loop of `mset`: one notification per pair. */
    method AnnounceBatch(mapping: Dict, olds: seq<Value>)
      requires |olds| == |mapping|
      modifies this`delivered, this`logged
      ensures delivered == old(delivered) + Told(Registered(), BatchEvents(mapping, olds))
    {
      ghost var r, events := Registered(), BatchEvents(mapping, olds);
      for i := 0 to |mapping|
        invariant delivered == old(delivered) + Told(r, events[..i])
      {
        var e := Event(mapping[i].0, SetEvent, olds[i], mapping[i].1);
        assert events[i] == e;
        ghost var told := delivered;
        Notify(e);
        ToldNext(r, old(delivered), told, events, i);
      }
      assert events[..|events|] == events;
    }

    method MsetValues(mapping: Dict, others: Others) returns (result: Result, ghost won: nat)
      modifies this`ref, this`delivered, this`logged
      ensures Wrote(Mset(mapping), DeleteEvent, others, maxRetries, Registered(),
                    Ends(old(ref), old(delivered), ref, delivered), result, won)
      ensures result.Won? ==>
        && result.snapshot.contents
           == ReadBy(ReadBy(old(ref), others.early, |mapping|), others.rivals, won).contents + AsMap(mapping)
        && (exists events ::
              IsBatchNews(events, mapping, old(ref), others) && delivered == old(delivered) + Told(Registered(), events))
      ensures !result.Won? ==> delivered == old(delivered)
    {
      var olds := OldValues(mapping, others);
      var box;
      result, box, won := Mutate(Mset(mapping), others);
      if result.Won? { AnnounceBatch(mapping, olds); }
      WroteBatch(mapping, others, maxRetries, Registered(), Ends(old(ref), old(delivered), ref, delivered), result, won);
    }

    method AtomicUpdate(key: Key, f: Value -> Value, default: Value, others: Others)
      returns (result: Result, value: Value, ghost won: nat)
      modifies this`ref, this`delivered, this`logged
      ensures Wrote(Atomic(key, f, default), DeleteEvent, others, maxRetries, Registered(),
                    Ends(old(ref), old(delivered), ref, delivered), result, won)
      ensures result.Won? ==> value == f(GetOr(ReadBy(old(ref), others.rivals, won).contents, key, default))
      // the winning attempt swapped, or had nothing to swap, and its audience hears what it replaced
      ensures result.Won? ==>
        && var base := ReadBy(old(ref), others.rivals, won);
        && result.snapshot.contents == base.contents[key := value]
        && (result.snapshot != base ==> AfterRivals(base, others.rivals, won) == base && ref == result.snapshot)
        && delivered == old(delivered)
                      + ToEach(Audience(Registered(), key),
                               Event(key, SetEvent, Get(base.contents, key), Get(result.snapshot.contents, key)))
      ensures !result.Won? ==> delivered == old(delivered)
    {
      var box;
      result, box, won := Mutate(Atomic(key, f, default), others);
      value := Null;
      if result.Won? {
        var before := if box.was.Some? then box.was.value else Null;
        value := box.becomes;
        Notify(Event(key, SetEvent, before, value));
      }
      ghost var base := ReadBy(old(ref), others.rivals, won).contents;
      WroteOne(Atomic(key, f, default), DeleteEvent, others, maxRetries, Registered(), Ends(old(ref), old(delivered), ref, delivered),
               result, won, Event(key, SetEvent, Get(base, key), f(GetOr(base, key, default))));
    }

    /** `delete`, which answers by its first look; the scheduler calls it with the expire event. */
    method DeleteKey(key: Key, gone: Kind, others: Others)
      returns (existed: bool, result: Option<Result>, ghost won: nat)
      modifies this`ref, this`delivered, this`logged
      ensures existed == old(key in Now()) == result.Some?
      ensures existed ==> Wrote(Delete(key), gone, others, maxRetries, Registered(),
                                Ends(old(ref), old(delivered), ref, delivered), result.value, won)
      ensures !existed ==> unchanged(this)
      ensures existed && result.value.Won? ==>
        && result.value.snapshot.contents == ReadBy(ReadBy(old(ref), others.early, 2), others.rivals, won).contents - {key}
        && delivered == old(delivered)
                      + ToEach(Audience(Registered(), key),
                               Event(key, gone, Get(ReadBy(old(ref), others.early, 1).contents, key), Null))
      ensures existed && !result.value.Won? ==> delivered == old(delivered)
    {
      existed := key in ref.contents;
      won := 0;
      if !existed { return existed, None, won; }
      DeleteLooks(key, ref, others);
      ref := AfterRivals(ref, others.early, 0);
      var before := Get(ref.contents, key);
      ref := AfterRivals(ref, others.early, 1);
      ghost var start := ref;
      var res, box;
      res, box, won := Mutate(Delete(key), others);
      result := Some(res);
      DeleteTakesOut(key, ReadBy(start, others.rivals, won).contents);
      if res.Won? { Notify(Event(key, gone, before, Null)); }
      WroteOne(Delete(key), gone, others, maxRetries, Registered(), Ends(old(ref), old(delivered), ref, delivered),
               res, won, Event(key, gone, before, Null));
    }

    // ---- and with nobody else writing ---------------------------------------------

    /** The new contents, and the events of a serial run heard by their audience. */
    twostate predicate WroteSerially(op: Op, gone: Kind, ok: bool)
      reads this
    {
      && subs == old(subs) && nextSubId == old(nextSubId)
      && ok == (maxRetries > 0)
      && Now() == (if ok then Effect(op, old(Now())) else old(Now()))
      && delivered == old(delivered) + if ok then Told(Registered(), Announced(op, gone, old(Now()))) else []
    }

    method SetAlone(key: Key, value: Value) returns (ok: bool)
      modifies this`ref, this`delivered, this`logged
      ensures WroteSerially(Set(key, value), DeleteEvent, ok)
    {
      var result, won := SetValue(key, value, NOBODY);
      ok := result.Won?;
      WroteAlone(Set(key, value), DeleteEvent, maxRetries, Registered(), Ends(old(ref), old(delivered), ref, delivered), result, won);
    }

    method MsetAlone(mapping: Dict) returns (ok: bool)
      modifies this`ref, this`delivered, this`logged
      ensures WroteSerially(Mset(mapping), DeleteEvent, ok)
    {
      var result, won := MsetValues(mapping, NOBODY);
      ok := result.Won?;
      WroteAlone(Mset(mapping), DeleteEvent, maxRetries, Registered(), Ends(old(ref), old(delivered), ref, delivered), result, won);
    }

    method AtomicAlone(key: Key, f: Value -> Value, default: Value) returns (ok: bool, value: Value)
      modifies this`ref, this`delivered, this`logged
      ensures WroteSerially(Atomic(key, f, default), DeleteEvent, ok)
      ensures ok ==> value == f(GetOr(old(Now()), key, default))
    {
      var result, v, won := AtomicUpdate(key, f, default, NOBODY);
      ok, value := result.Won?, v;
      WroteAlone(Atomic(key, f, default), DeleteEvent, maxRetries, Registered(), Ends(old(ref), old(delivered), ref, delivered), result, won);
    }

    method DeleteAlone(key: Key, gone: Kind) returns (ok: bool, existed: bool)
      modifies this`ref, this`delivered, this`logged
      ensures old(key in Now()) ==> WroteSerially(Delete(key), gone, ok)
      ensures old(key !in Now()) ==> ok && unchanged(this)
      ensures existed == old(key in Now())
      ensures ok ==> Now() == old(Now()) - {key}
      ensures existed && ok ==>
        delivered == old(delivered) + ToEach(Audience(Registered(), key), Event(key, gone, old(Get(Now(), key)), Null))
    {
      var result;
      ghost var won;
      existed, result, won := DeleteKey(key, gone, NOBODY);
      ok := !existed || result.value.Won?;
      NobodyMoves(old(ref), 1);
      if existed {
        WroteAlone(Delete(key), gone, maxRetries, Registered(), Ends(old(ref), old(delivered), ref, delivered), result.value, won);
      }
    }

    /** `delete(key, _event="expire")`, whether or not the key is still there. */
    method ExpireKey(key: Key)
      modifies this`ref, this`delivered, this`logged
      ensures maxRetries > 0 ==>
        && Now() == Effect(Delete(key), old(Now()))
        && delivered == old(delivered) + Told(Registered(), Announced(Delete(key), ExpireEvent, old(Now())))
    {
      var ok, existed := DeleteAlone(key, ExpireEvent);
    }
  }

  /** The handle `subscribe` returns. */
  class Subscription {
    const store: ReactiveStore
    const slot: Slot
    const id: nat
    var cancelled: bool

    constructor (store: ReactiveStore, slot: Slot, id: nat)
      ensures this.store == store && this.slot == slot && this.id == id && !cancelled
    {
      this.store := store;
      this.slot := slot;
      this.id := id;
      cancelled := false;
    }

    /** Taking oneself off the list; a second call does nothing. */
    method Cancel()
      modifies this, store`subs
      ensures cancelled
      ensures store.Registered() ==
        if old(cancelled) then old(store.Registered()) else Remove(old(store.Registered()), slot, id)
    {
      if !cancelled {
        store.Unsubscribe(slot, id);
        cancelled := true;
      }
    }
  }
}
