/**
 Theorems about whole runs of the fork resolver: for every sequence of stream
 events and pops, which slots are reported, in which order, and why.
 */
module MemoryRuns {
  import opened Common
  import opened Memory

  datatype Event = Seen(slot: Slot, mark: Mark) | Popped

  datatype Outcome = Aborted | Reached(state: State, out: seq<Verdict>)

  predicate LegalEvent(e: Event) {
    e.Seen? ==> Legal(e.slot, e.mark)
  }

  /** Neither assertion of the program fires. */
  predicate Accepted(s: State, e: Event) {
    e.Seen? ==> Accepts(s, e.slot, e.mark)
  }

  ghost function Step(s: State, e: Event): (r: (State, seq<Verdict>))
    requires Inv(s) && LegalEvent(e) && Accepted(s, e)
    ensures Inv(r.0)
  {
    match e
    case Seen(slot, mark) =>
      RecordKeeps(s, slot, mark);
      (Record(s, slot, mark), [])
    case Popped =>
      PopKeeps(s);
      var (t, v) := Pop(s);
      (t, if v.Some? then [v.value] else [])
  }

  /** The state and the verdicts after `events`, or Aborted when an assertion fired on the way. */
  ghost function Run(events: seq<Event>): (r: Outcome)
    requires forall e :: e in events ==> LegalEvent(e)
    ensures r.Reached? ==> Inv(r.state)
  {
    if events == [] then Reached(Empty, [])
    else
      var n := |events| - 1;
      match Run(events[..n])
      case Aborted => Aborted
      case Reached(s, out) =>
        if Accepted(s, events[n]) then
          var (t, vs) := Step(s, events[n]);
          Reached(t, out + vs)
        else Aborted
  }

  ghost predicate LegalRun(events: seq<Event>) {
    && (forall e :: e in events ==> LegalEvent(e))
    && Run(events).Reached?
  }

  // ----- order -----

  /** The first slot the stream mentions: where the numbering starts. */
  ghost function FirstSlot(events: seq<Event>): Slot {
    if events == [] then 0
    else
      var n := |events| - 1;
      var before := FirstSlot(events[..n]);
      if before > 0 || events[n].Popped? then before else events[n].slot
  }

  lemma StepNumbers(s: State, e: Event)
    requires Inv(s) && LegalEvent(e) && Accepted(s, e)
    ensures var (t, vs) := Step(s, e);
      if e.Popped? then
        && t.genNext == s.genNext + |vs| && |vs| <= 1
        && (vs != [] ==> vs[0].slot == s.genNext && s.genNext > 0)
      else
        vs == [] && t.genNext == if s.genNext == 0 then e.slot else s.genNext
  {
    if e.Popped? {
      PopKeeps(s);
    } else {
      AddSlotKeeps(s, e.slot);
    }
  }

  /** Verdicts number the slots consecutively from the first one mentioned: no gap, no repeat. */
  lemma {:induction false} OrderedEmission(events: seq<Event>)
    requires LegalRun(events)
    ensures var r := Run(events);
      && r.state.genNext == FirstSlot(events) + |r.out|
      && forall i :: 0 <= i < |r.out| ==> r.out[i].slot == FirstSlot(events) + i
    ensures FirstSlot(events) == 0 ==> Run(events).out == []
  {
    if events != [] {
      OrderedEmission(events[..|events| - 1]);
      StepNumbers(Run(events[..|events| - 1]).state, events[|events| - 1]);
    }
  }

  // ----- draining -----

  /** The caller's loop `while let Some(block) = pop_confirmed()`. */
  ghost function Drain(s: State): (r: (State, seq<Verdict>))
    requires Inv(s)
    decreases s.confirmed + 1 - s.genNext
  {
    PopKeeps(s);
    var (t, v) := Pop(s);
    if v.None? then (s, [])
    else
      var (u, vs) := Drain(t);
      (u, [v.value] + vs)
  }

  /** Draining reports every slot up to the last confirmed one, once and in order. */
  lemma {:induction false} DrainReports(s: State)
    requires Inv(s)
    ensures var (t, vs) := Drain(s);
      && Inv(t) && t.confirmed == s.confirmed
      && (s.confirmed > 0 ==> t.genNext == s.confirmed + 1)
      && t.genNext == s.genNext + |vs|
      && forall i :: 0 <= i < |vs| ==> vs[i].slot == s.genNext + i
    decreases s.confirmed + 1 - s.genNext
  {
    PopKeeps(s);
    var (t, v) := Pop(s);
    if v.Some? {
      DrainReports(t);
    }
  }

  // ----- soundness -----

  ghost predicate Linked(events: seq<Event>, parent: Slot, child: Slot) {
    exists b :: Seen(child, IsBlock(b)) in events && b.parent == parent
  }

  /** `path` climbs recorded parent links up to a confirmed slot. */
  ghost predicate IsChain(events: seq<Event>, path: seq<Slot>) {
    && path != []
    && Seen(path[|path| - 1], IsConfirmed) in events
    && forall i :: 0 <= i < |path| - 1 ==> Linked(events, path[i], path[i + 1])
  }

  /** Confirmed, or an ancestor of a confirmed slot. */
  ghost predicate OnConfirmedChain(events: seq<Event>, slot: Slot) {
    exists path :: IsChain(events, path) && path[0] == slot
  }

  /** Strictly between a chain block and its parent. */
  ghost predicate Skipped(events: seq<Event>, slot: Slot) {
    exists c, b :: Seen(c, IsBlock(b)) in events && b.parent < slot < c && OnConfirmedChain(events, c)
  }

  ghost predicate Justified(events: seq<Event>, v: Verdict) {
    match v
    case Found(slot, block) => Seen(slot, IsBlock(block)) in events && OnConfirmedChain(events, slot)
    case Dead(slot) => Seen(slot, IsDead) in events || Skipped(events, slot)
    case Missed(_) => true
  }

  /** Everything the deque says comes from an event. */
  ghost predicate Traced(events: seq<Event>, info: Info) {
    && (info.block.Some? ==> Seen(info.slot, IsBlock(info.block.value)) in events)
    && (info.confirmed ==> Seen(info.slot, IsConfirmed) in events)
    && (info.dead ==> Seen(info.slot, IsDead) in events || Skipped(events, info.slot))
  }

  ghost predicate TracedState(events: seq<Event>, s: State) {
    forall i :: 0 <= i < |s.blocks| ==> Traced(events, s.blocks[i])
  }

  lemma ChainGrows(events: seq<Event>, e: Event, slot: Slot)
    requires OnConfirmedChain(events, slot)
    ensures OnConfirmedChain(events + [e], slot)
  {
    var path :| IsChain(events, path) && path[0] == slot;
    forall i | 0 <= i < |path| - 1 ensures Linked(events + [e], path[i], path[i + 1]) {
      assert Linked(events, path[i], path[i + 1]);
      var b :| Seen(path[i + 1], IsBlock(b)) in events && b.parent == path[i];
      assert Seen(path[i + 1], IsBlock(b)) in events + [e];
    }
    assert IsChain(events + [e], path);
  }

  lemma SkippedGrows(events: seq<Event>, e: Event, slot: Slot)
    requires Skipped(events, slot)
    ensures Skipped(events + [e], slot)
  {
    var c, b :| Seen(c, IsBlock(b)) in events && b.parent < slot < c && OnConfirmedChain(events, c);
    ChainGrows(events, e, c);
    assert Seen(c, IsBlock(b)) in events + [e];
  }

  lemma JustifiedGrows(events: seq<Event>, e: Event, v: Verdict)
    requires Justified(events, v)
    ensures Justified(events + [e], v)
  {
    match v {
      case Found(slot, _) => ChainGrows(events, e, slot);
      case Dead(slot) => if Skipped(events, slot) { SkippedGrows(events, e, slot); }
      case Missed(_) =>
    }
  }

  lemma TracedGrows(events: seq<Event>, e: Event, info: Info)
    requires Traced(events, info)
    ensures Traced(events + [e], info)
  {
    if info.dead && Seen(info.slot, IsDead) !in events {
      SkippedGrows(events, e, info.slot);
    }
  }

  /** The walk stays on the chain it started on. */
  lemma {:induction false} WalkStaysOnChain(events: seq<Event>, s: State, slot: Slot)
    requires Inv(s) && TracedState(events, s) && Holds(s, slot)
    requires OnConfirmedChain(events, slot)
    ensures OnConfirmedChain(events, Walk(s, slot))
    decreases slot
  {
    var block := BlockAt(s, slot);
    if block.Some? && s.blocks[0].slot <= block.value.parent {
      var parent := block.value.parent;
      var path :| IsChain(events, path) && path[0] == slot;
      assert Seen(slot, IsBlock(block.value)) in events;
      var longer := [parent] + path;
      assert forall i :: 0 <= i < |path| ==> longer[i + 1] == path[i];
      forall i | 0 <= i < |longer| - 1 ensures Linked(events, longer[i], longer[i + 1]) {
        if i > 0 {
          assert Linked(events, path[i - 1], path[i]);
        }
      }
      assert IsChain(events, longer);
      WalkStaysOnChain(events, s, parent);
    }
  }

  lemma EmitJustified(events: seq<Event>, s: State, bottom: Slot)
    requires Inv(s) && TracedState(events, s) && Holds(s, bottom)
    requires OnConfirmedChain(events, bottom)
    requires BlockAt(s, bottom).Some? ==> BlockAt(s, bottom).value.parent < s.blocks[0].slot
    ensures var (t, v) := Emit(s, bottom); TracedState(events, t) && Justified(events, v)
  {
    var first := s.blocks[0].slot;
    var (t, v) := Emit(s, bottom);
    var block := BlockAt(s, bottom);
    if block.Some? {
      assert Seen(bottom, IsBlock(block.value)) in events;
      forall slot | block.value.parent < slot < bottom ensures Skipped(events, slot) {}
      if s.genNext == first {
        var buried := Bury(s.blocks, bottom - first);
        assert forall i :: 0 <= i < |buried| ==> Traced(events, buried[i]);
      }
    }
  }

  lemma PopJustified(events: seq<Event>, s: State)
    requires Inv(s) && TracedState(events, s)
    ensures var (t, v) := Pop(s);
      TracedState(events, t) && (v.Some? ==> Justified(events, v.value))
  {
    SomeConfirmed(s);
    if FirstConfirmed(s.blocks).Some? {
      var c := FirstConfirmed(s.blocks).value;
      assert Seen(c, IsConfirmed) in events;
      assert IsChain(events, [c]);
      WalkStaysOnChain(events, s, c);
      EmitJustified(events, s, Walk(s, c));
    }
  }

  lemma AddSlotTraced(events: seq<Event>, s: State, slot: Slot)
    requires Inv(s) && TracedState(events, s) && slot > 0
    ensures TracedState(events, AddSlot(s, slot))
  {
    AddSlotKeeps(s, slot);
    var a := AddSlot(s, slot);
    forall i | 0 <= i < |a.blocks| ensures Traced(events, a.blocks[i]) {
      var t := a.blocks[0].slot + i;
      assert a.blocks[i] == At(a, t);
      assert Holds(s, t) ==> At(s, t) == At(a, t);
    }
  }

  lemma RecordTraced(events: seq<Event>, s: State, slot: Slot, mark: Mark)
    requires Inv(s) && TracedState(events, s) && slot > 0 && Seen(slot, mark) in events
    ensures TracedState(events, Record(s, slot, mark))
  {
    AddSlotTraced(events, s, slot);
    var a := AddSlot(s, slot);
    assert Contiguous(a.blocks) by { AddSlotKeeps(s, slot); }
    if Holds(a, slot) {
      var index := slot - a.blocks[0].slot;
      assert Traced(events, Marked(a.blocks[index], mark));
      assert Record(s, slot, mark).blocks == a.blocks[index := Marked(a.blocks[index], mark)];
    }
  }

  lemma StepTraced(events: seq<Event>, s: State, e: Event)
    requires Inv(s) && TracedState(events, s) && LegalEvent(e) && Accepted(s, e)
    ensures TracedState(events + [e], Step(s, e).0)
    ensures forall v :: v in Step(s, e).1 ==> Justified(events + [e], v)
  {
    var all := events + [e];
    forall i | 0 <= i < |s.blocks| ensures Traced(all, s.blocks[i]) { TracedGrows(events, e, s.blocks[i]); }
    if e.Popped? {
      PopJustified(all, s);
    } else {
      RecordTraced(all, s, e.slot, e.mark);
    }
  }

  /** Every verdict of every run is justified by the events so far. */
  lemma {:induction false} ForkSoundness(events: seq<Event>)
    requires LegalRun(events)
    ensures TracedState(events, Run(events).state)
    ensures forall v :: v in Run(events).out ==> Justified(events, v)
  {
    if events != [] {
      var n := |events| - 1;
      ForkSoundness(events[..n]);
      assert events == events[..n] + [events[n]];
      var before := Run(events[..n]);
      StepTraced(events[..n], before.state, events[n]);
      forall v | v in before.out ensures Justified(events, v) {
        JustifiedGrows(events[..n], events[n], v);
      }
    }
  }
}
