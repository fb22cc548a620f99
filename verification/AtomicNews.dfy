/** What `atomic` announces, in any interleaving: the step its own swap made. */
module AtomicNews {
  import opened Values
  import opened CasStore
  import opened Linearizability
  import opened WaitFor
  import opened NoLostWakeup
  import opened StaleNews

  /** The one announcement of an `atomic` call, with what its `box` holds. */
  ghost predicate FromItsBox(s: World, id: CallId)
    requires id in s.notes
  {
    id in s.store.calls && (s.store.calls[id].op.Atomic? ==>
      && s.store.calls[id].pc.Returned? && s.store.calls[id].box.Box?
      && s.notes[id].todo == [] && s.notes[id].key == s.store.calls[id].op.key
      && s.notes[id].before == OldValue(s.store.calls[id].box)
      && s.notes[id].value == s.store.calls[id].box.becomes)
  }

  ghost predicate AllFromTheirBoxes(s: World) {
    forall id :: id in s.notes ==> FromItsBox(s, id)
  }

  lemma StoreKeepsBoxes(max: int, s: World, step: Step)
    requires WInv(max, s) && AllFromTheirBoxes(s)
    ensures AllFromTheirBoxes(s.(store := Do(max, s.store, step)))
  {
    DoLater(max, s.store, step);
    var t := s.(store := Do(max, s.store, step));
    forall id | id in t.notes ensures FromItsBox(t, id) { assert NoteOk(s, id) && FromItsBox(s, id); }
  }

  lemma CaptureKeepsBoxes(max: int, s: World, id: CallId)
    requires WInv(max, s) && AllFromTheirBoxes(s)
    ensures AllFromTheirBoxes(DoCapture(s, id))
  {
    var t := DoCapture(s, id);
    forall i | i in t.notes ensures FromItsBox(t, i) {
      if i != id || t == s { assert FromItsBox(s, i); } else { FirstCapture(max, s, id); }
    }
  }

  lemma FirstCapture(max: int, s: World, id: CallId)
    requires WInv(max, s) && AllFromTheirBoxes(s) && DoCapture(s, id) != s
    ensures id in DoCapture(s, id).notes && FromItsBox(DoCapture(s, id), id)
  {
    assert CallOk(max, s.store, id);
    assert id in s.notes ==> FromItsBox(s, id);
  }

  lemma DeliverKeepsBoxes(s: World, id: CallId)
    requires AllFromTheirBoxes(s)
    ensures AllFromTheirBoxes(DoDeliver(s, id))
  {
    var t := DoDeliver(s, id);
    forall i | i in t.notes ensures FromItsBox(t, i) { assert FromItsBox(s, i); }
  }

  lemma SameNotes(s: World, t: World)
    requires AllFromTheirBoxes(s) && t.notes == s.notes && t.store == s.store
    ensures AllFromTheirBoxes(t)
  {
    forall i | i in t.notes ensures FromItsBox(t, i) { assert FromItsBox(s, i); }
  }

  lemma WDoKeepsBoxes(max: int, s: World, step: WStep)
    requires WInv(max, s) && AllFromTheirBoxes(s)
    ensures AllFromTheirBoxes(WDo(max, s, step))
  {
    if step.OnStore? {
      StoreKeepsBoxes(max, s, step.step);
    } else if step.Capture? {
      CaptureKeepsBoxes(max, s, step.id);
    } else if step.Deliver? {
      DeliverKeepsBoxes(s, step.id);
    } else {
      WDoFrame(max, s, step);
      SameNotes(s, WDo(max, s, step));
    }
  }

  lemma {:induction false} AlwaysFromTheirBoxes(max: int, schedule: seq<WStep>)
    ensures AllFromTheirBoxes(WExec(max, schedule))
  {
    if schedule != [] {
      var n := |schedule| - 1;
      AlwaysFromTheirBoxes(max, schedule[..n]);
      WExecKeepsInv(max, schedule[..n]);
      WDoKeepsBoxes(max, WExec(max, schedule[..n]), schedule[n]);
    }
  }

  /**
   An `atomic` call that has begun to announce announces one thing: of its key,
   the old value that the object it worked on held, and the new value that the
   object it left in `_ref` holds.
   */
  lemma {:induction false} AtomicAnnouncesItsOwnStep(max: int, schedule: seq<WStep>, s: World, id: CallId, c: Call)
    requires s == WExec(max, schedule) && id in s.notes && id in s.store.calls && c == s.store.calls[id]
    requires c.op.Atomic?
    ensures HistOk(s.store) && c.pc.Returned? && c.pc.at <= |s.store.log| && c.pc.snap < |s.store.heap|
    ensures s.notes[id].todo == [] && s.notes[id].key == c.op.key
    ensures s.notes[id].before == Some(Get(s.store.heap[s.store.hist[c.pc.at]], c.op.key))
    ensures Some(s.notes[id].value) == Lookup(s.store.heap[c.pc.snap], c.op.key)
    ensures c.pc.swapped ==> c.pc.at < |s.store.log| && s.store.hist[c.pc.at + 1] == c.pc.snap
  {
    AlwaysFromTheirBoxes(max, schedule);
    WExecKeepsInv(max, schedule);
    assert FromItsBox(s, id) && CallOk(max, s.store, id);
  }
}
