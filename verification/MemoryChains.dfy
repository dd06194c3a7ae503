/**
 Fork resolution, continued: the program's assertions hold on every disciplined
 stream, emitted blocks link up, and a fully recorded chain is reported exactly.
 */
module MemoryChains {
  import opened Common
  import opened Memory
  import opened MemoryRuns

  // ----- the assertions and the panic are unreachable -----

  predicate Confirms(e: Event) {
    e.Seen? && e.mark.IsConfirmed?
  }

  /** Confirmations rise, and no slot is reported both dead and confirmed. */
  ghost predicate Disciplined(events: seq<Event>) {
    && (forall e :: e in events ==> LegalEvent(e))
    && (forall i, j :: 0 <= i < j < |events| && Confirms(events[i]) && Confirms(events[j])
                       ==> events[i].slot < events[j].slot)
    && (forall slot :: !(Seen(slot, IsDead) in events && Seen(slot, IsConfirmed) in events))
  }

  /** Dead marks come from the stream, or lie below the last confirmed slot. */
  ghost predicate DeadsExplained(events: seq<Event>, s: State) {
    && (s.confirmed > 0 ==> Seen(s.confirmed, IsConfirmed) in events)
    && forall i :: 0 <= i < |s.blocks| && s.blocks[i].dead ==>
                     Seen(s.blocks[i].slot, IsDead) in events || s.blocks[i].slot < s.confirmed
  }

  lemma PopExplained(events: seq<Event>, s: State)
    requires Inv(s) && DeadsExplained(events, s)
    ensures DeadsExplained(events, Pop(s).0)
  {
    SomeConfirmed(s);
    if FirstConfirmed(s.blocks).Some? {
      var bottom := Walk(s, FirstConfirmed(s.blocks).value);
      if BlockAt(s, bottom).Some? && s.genNext == s.blocks[0].slot {
        var buried := Bury(s.blocks, bottom - s.genNext);
        assert forall i :: 0 <= i < |buried| && buried[i].dead ==>
          Seen(buried[i].slot, IsDead) in events || buried[i].slot < s.confirmed;
      }
    }
  }

  lemma AddSlotExplained(events: seq<Event>, s: State, slot: Slot)
    requires Inv(s) && DeadsExplained(events, s) && slot > 0
    ensures DeadsExplained(events, AddSlot(s, slot))
  {
    AddSlotKeeps(s, slot);
    ExtendedExplained(events, s, AddSlot(s, slot));
  }

  /** Padding adds no dead slot. */
  lemma ExtendedExplained(events: seq<Event>, s: State, a: State)
    requires Extends(s, a) && DeadsExplained(events, s)
    requires Contiguous(s.blocks) && Contiguous(a.blocks)
    ensures DeadsExplained(events, a)
  {
    forall i | 0 <= i < |a.blocks| && a.blocks[i].dead
      ensures Seen(a.blocks[i].slot, IsDead) in events || a.blocks[i].slot < a.confirmed
    {
      var t := a.blocks[0].slot + i;
      assert a.blocks[i] == At(a, t);
      assert Holds(s, t) && At(s, t) == At(a, t);
    }
  }

  lemma RecordExplained(events: seq<Event>, s: State, slot: Slot, mark: Mark)
    requires Inv(s) && DeadsExplained(events, s) && slot > 0 && Seen(slot, mark) in events
    requires mark.IsConfirmed? ==> s.confirmed < slot
    ensures DeadsExplained(events, Record(s, slot, mark))
  {
    AddSlotExplained(events, s, slot);
    var a := AddSlot(s, slot);
    assert Contiguous(a.blocks) by { AddSlotKeeps(s, slot); }
    if Holds(a, slot) {
      var index := slot - a.blocks[0].slot;
      assert Record(s, slot, mark).blocks == a.blocks[index := Marked(a.blocks[index], mark)];
    }
  }

  lemma StepExplained(events: seq<Event>, s: State, e: Event)
    requires Inv(s) && DeadsExplained(events, s) && LegalEvent(e) && Accepted(s, e)
    ensures DeadsExplained(events + [e], Step(s, e).0)
  {
    assert DeadsExplained(events + [e], s);
    if e.Popped? {
      PopExplained(events + [e], s);
    } else {
      RecordExplained(events + [e], s, e.slot, e.mark);
    }
  }

  lemma DisciplinedPrefix(events: seq<Event>)
    requires Disciplined(events) && events != []
    ensures Disciplined(events[..|events| - 1])
  {
    var prefix := events[..|events| - 1];
    assert forall e :: e in prefix ==> e in events;
  }

  lemma AcceptedByDiscipline(events: seq<Event>, s: State, e: Event)
    requires Disciplined(events + [e]) && Inv(s)
    requires DeadsExplained(events, s) && TracedState(events, s)
    ensures Accepted(s, e)
  {
    var all := events + [e];
    assert all[|events|] == e;
    if e.Seen? && !e.mark.IsBlock? {
      assert LegalEvent(e);
      AddSlotKeeps(s, e.slot);
      if Holds(s, e.slot) {
        assert Traced(events, At(s, e.slot));
        assert At(s, e.slot).slot == e.slot;
      }
      if e.mark.IsConfirmed? && s.confirmed > 0 {
        var i :| 0 <= i < |events| && events[i] == Seen(s.confirmed, IsConfirmed);
        assert all[i] == Seen(s.confirmed, IsConfirmed);
      }
    }
  }

  /** On a disciplined stream no assertion fires, so every run reaches a state. */
  lemma {:induction false} NeverAborts(events: seq<Event>)
    requires Disciplined(events)
    ensures LegalRun(events)
    ensures DeadsExplained(events, Run(events).state)
  {
    if events != [] {
      var n := |events| - 1;
      DisciplinedPrefix(events);
      NeverAborts(events[..n]);
      ForkSoundness(events[..n]);
      assert events == events[..n] + [events[n]];
      var s := Run(events[..n]).state;
      AcceptedByDiscipline(events[..n], s, events[n]);
      StepExplained(events[..n], s, events[n]);
    }
  }

  // ----- what changes a walk -----

  /** Two deques that record the same blocks from `Walk(s, slot)` up give the same walk. */
  lemma {:induction false} WalkSame(s: State, t: State, slot: Slot)
    requires Shaped(s) && Shaped(t) && Holds(s, slot)
    requires BlockAt(s, Walk(s, slot)).Some?
    requires t.blocks != [] && BlockAt(s, Walk(s, slot)).value.parent < t.blocks[0].slot
    requires forall x :: Walk(s, slot) <= x <= slot && BlockAt(s, x).Some? ==> BlockAt(t, x) == BlockAt(s, x)
    ensures Holds(t, slot) && Walk(t, slot) == Walk(s, slot)
    decreases slot
  {
    assert BlockAt(s, slot).Some?;
    var parent := BlockAt(s, slot).value.parent;
    if s.blocks[0].slot <= parent {
      WalkSame(s, t, parent);
    }
  }

  /** The child through which the walk from `slot` enters `Walk(s, slot)`. */
  lemma {:induction false} WalkThrough(s: State, t: State, slot: Slot) returns (child: Slot)
    requires Shaped(s) && Shaped(t) && Holds(s, slot) && Walk(s, slot) < slot
    requires t.blocks != [] && t.blocks[0].slot == Walk(s, slot) + 1
    requires forall x :: Walk(s, slot) < x <= slot && BlockAt(s, x).Some? ==> BlockAt(t, x) == BlockAt(s, x)
    ensures Walk(s, slot) < child <= slot && BlockAt(s, child).Some?
    ensures BlockAt(s, child).value.parent == Walk(s, slot)
    ensures Holds(t, slot) && Walk(t, slot) == child
    decreases slot
  {
    var parent := BlockAt(s, slot).value.parent;
    if parent == Walk(s, slot) {
      child := slot;
    } else {
      child := WalkThrough(s, t, parent);
    }
  }

  /** The effect of a stream event, slot by slot. */
  ghost predicate Edited(s: State, t: State, slot: Slot, mark: Mark) {
    && s.genNext <= t.genNext
    && (forall x :: Holds(s, x) ==> Holds(t, x))
    && (forall x :: Holds(t, x) ==>
          && At(t, x).confirmed == ((mark.IsConfirmed? && slot == x) || (Holds(s, x) && At(s, x).confirmed))
          && At(t, x).dead == ((mark.IsDead? && slot == x) || (Holds(s, x) && At(s, x).dead))
          && At(t, x).block == if mark.IsBlock? && slot == x then Some(mark.block) else BlockAt(s, x))
  }

  lemma PutEdits(s: State, a: State, slot: Slot, mark: Mark)
    requires Contiguous(a.blocks) && Extends(s, a) && Holds(a, slot)
    requires s.genNext <= a.genNext
    ensures Edited(s, Put(a, slot, Marked(At(a, slot), mark)), slot, mark)
  {
    assert forall x :: Holds(a, x) ==> At(a, x) == if Holds(s, x) then At(s, x) else NewInfo(x);
  }

  lemma RecordEdits(s: State, slot: Slot, mark: Mark)
    requires Inv(s) && slot > 0
    ensures Edited(s, Record(s, slot, mark), slot, mark)
  {
    AddSlotKeeps(s, slot);
    var a := AddSlot(s, slot);
    if Holds(a, slot) {
      PutEdits(s, a, slot, mark);
      SameDequeEdits(s, Put(a, slot, Marked(At(a, slot), mark)), Record(s, slot, mark), slot, mark);
    }
  }

  lemma SameDequeEdits(s: State, t: State, u: State, slot: Slot, mark: Mark)
    requires Edited(s, t, slot, mark) && u.blocks == t.blocks && u.genNext == t.genNext
    ensures Edited(s, u, slot, mark)
  {
    assert forall x :: Holds(u, x) <==> Holds(t, x);
    assert forall x :: Holds(t, x) ==> At(u, x) == At(t, x);
  }

  /**
   The effect of a pop while the walk from the first confirmed slot `c` ends at
   a recorded block: the front entry goes, entries from the end of the walk up
   are untouched.
   */
  ghost predicate PopsTo(s: State, t: State, v: Verdict, c: Slot)
    requires Shaped(s) && Holds(s, c) && BlockAt(s, Walk(s, c)).Some?
  {
    var bottom := Walk(s, c);
    && s.genNext <= s.blocks[0].slot
    && t.genNext == s.genNext + 1
    && if s.genNext < s.blocks[0].slot then
         && t.blocks == s.blocks
         && v == if s.genNext <= BlockAt(s, bottom).value.parent then Missed(s.genNext) else Dead(s.genNext)
       else
         && FrontPopped(s, t, bottom)
         && v == if bottom == s.genNext then Found(s.genNext, BlockAt(s, bottom).value) else Dead(s.genNext)
  }

  ghost predicate FrontPopped(s: State, t: State, bottom: Slot) {
    && (t.blocks != [] ==> s.blocks != [] && t.blocks[0].slot == s.blocks[0].slot + 1)
    && (forall x :: Holds(t, x) <==> Holds(s, x) && s.blocks[0].slot < x)
    && (forall x: Slot :: Holds(t, x) ==> At(t, x).confirmed == At(s, x).confirmed && At(t, x).dead == (At(s, x).dead || x < bottom))
    && (forall x :: Holds(t, x) && bottom <= x ==> At(t, x).block == At(s, x).block)
  }

  lemma EmitFrontEffect(s: State, bottom: Slot)
    requires Contiguous(s.blocks) && Holds(s, bottom) && s.genNext == s.blocks[0].slot
    requires BlockAt(s, bottom).Some? && BlockAt(s, bottom).value.parent < s.blocks[0].slot
    ensures var (t, v) := Emit(s, bottom);
      && FrontPopped(s, t, bottom)
      && v == if bottom == s.genNext then Found(s.genNext, BlockAt(s, bottom).value) else Dead(s.genNext)
  {
    var first := s.blocks[0].slot;
    var buried := Bury(s.blocks, bottom - first);
    var t := Emit(s, bottom).0;
    assert t.blocks == buried[1..];
    if t.blocks != [] {
      assert t.blocks[0].slot == first + 1;
      assert forall i :: 0 <= i < |t.blocks| ==> t.blocks[i] == buried[i + 1];
    }
  }

  lemma PopEffect(s: State, c: Slot)
    requires Inv(s) && FirstConfirmed(s.blocks) == Some(c)
    requires Holds(s, c) && BlockAt(s, Walk(s, c)).Some?
    ensures Pop(s).1.Some? && PopsTo(s, Pop(s).0, Pop(s).1.value, c)
    ensures Inv(Pop(s).0)
  {
    PopKeeps(s);
    SomeConfirmed(s);
    if s.genNext == s.blocks[0].slot {
      EmitFrontEffect(s, Walk(s, c));
    }
  }

  lemma PopKeepsFirst(s: State, t: State, v: Verdict, c: Slot)
    requires Shaped(s) && Shaped(t) && Holds(s, c) && BlockAt(s, Walk(s, c)).Some? && PopsTo(s, t, v, c)
    requires FirstConfirmed(s.blocks) == Some(c) && s.genNext < c
    ensures FirstConfirmed(t.blocks) == Some(c) && Holds(t, c)
  {
    FirstConfirmedIs(s, c);
    FirstConfirmedIs(t, c);
  }

  // ----- chain linkage -----

  ghost predicate OneBlockPerSlot(events: seq<Event>) {
    forall slot, a, b :: Seen(slot, IsBlock(a)) in events && Seen(slot, IsBlock(b)) in events ==> a == b
  }

  /** The chain of the first confirmed slot `c` is recorded down to a block whose parent is `last`. */
  ghost predicate PendingFrom(s: State, c: Slot, last: Slot) {
    && Shaped(s)
    && FirstConfirmed(s.blocks) == Some(c)
    && last < s.genNext
    && Holds(s, c)
    && BlockAt(s, Walk(s, c)).Some?
    && BlockAt(s, Walk(s, c)).value.parent == last
  }

  ghost predicate Pending(s: State, last: Slot) {
    exists c :: PendingFrom(s, c, last)
  }

  /** Stream events leave a pending link alone. */
  lemma EventKeepsPending(events: seq<Event>, s: State, e: Event, last: Slot)
    requires Inv(s) && TracedState(events, s) && LegalEvent(e) && Accepted(s, e) && e.Seen?
    requires OneBlockPerSlot(events + [e]) && Pending(s, last)
    ensures Pending(Step(s, e).0, last)
  {
    var c: Slot :| PendingFrom(s, c, last);
    var t := Step(s, e).0;
    RecordEdits(s, e.slot, e.mark);
    SameBlocks(events, s, t, e.slot, e.mark);
    assert c <= s.confirmed by { SomeConfirmed(s); }
    EditKeepsPending(s, t, e.slot, e.mark, c, last);
  }

  lemma SameBlocks(events: seq<Event>, s: State, t: State, slot: Slot, mark: Mark)
    requires Contiguous(s.blocks) && TracedState(events, s) && Edited(s, t, slot, mark)
    requires OneBlockPerSlot(events + [Seen(slot, mark)])
    ensures forall x :: BlockAt(s, x).Some? ==> BlockAt(t, x) == BlockAt(s, x)
  {
    var all := events + [Seen(slot, mark)];
    forall x: Slot | BlockAt(s, x).Some? ensures BlockAt(t, x) == BlockAt(s, x) {
      assert Traced(events, At(s, x));
      assert Seen(x, IsBlock(BlockAt(s, x).value)) in all;
      assert Seen(slot, mark) in all;
    }
  }

  lemma EditKeepsPending(s: State, t: State, slot: Slot, mark: Mark, c: Slot, last: Slot)
    requires Shaped(t) && Edited(s, t, slot, mark) && PendingFrom(s, c, last)
    requires t.blocks != [] ==> t.genNext <= t.blocks[0].slot
    requires mark.IsConfirmed? ==> c < slot
    requires forall x :: BlockAt(s, x).Some? ==> BlockAt(t, x) == BlockAt(s, x)
    ensures PendingFrom(t, c, last)
  {
    FirstConfirmedIs(s, c);
    FirstConfirmedIs(t, c);
    WalkSame(s, t, c);
  }

  /** A pending link answers Dead until it answers its own block. */
  lemma PopKeepsPending(s: State, last: Slot)
    requires Inv(s) && Pending(s, last)
    ensures var (t, v) := Pop(s);
      && v.Some?
      && ((v.value.Dead? && Pending(t, last)) || (v.value.Found? && v.value.block.parent == last))
  {
    var c: Slot :| PendingFrom(s, c, last);
    PopEffect(s, c);
    PopsKeepPending(s, Pop(s).0, Pop(s).1.value, c, last);
  }

  lemma PopsKeepPending(s: State, t: State, v: Verdict, c: Slot, last: Slot)
    requires PendingFrom(s, c, last) && Shaped(t) && PopsTo(s, t, v, c)
    ensures (v.Dead? && PendingFrom(t, c, last)) || (v.Found? && v.block.parent == last)
  {
    if Walk(s, c) != s.genNext {
      PopKeepsFirst(s, t, v, c);
      WalkSame(s, t, c);
    }
  }

  /** Emitting an unconfirmed block leaves a link pending from it. */
  lemma FoundStartsPending(s: State)
    requires Inv(s) && Pop(s).1.Some? && Pop(s).1.value.Found?
    requires Holds(s, s.genNext) ==> !At(s, s.genNext).confirmed
    ensures Pending(Pop(s).0, s.genNext)
  {
    SomeConfirmed(s);
    var c := FirstConfirmed(s.blocks).value;
    PopEffect(s, c);
    FoundLeavesPending(s, Pop(s).0, Pop(s).1.value, c);
  }

  lemma FoundLeavesPending(s: State, t: State, v: Verdict, c: Slot)
    requires Shaped(s) && Shaped(t) && FirstConfirmed(s.blocks) == Some(c) && Holds(s, c)
    requires BlockAt(s, Walk(s, c)).Some? && PopsTo(s, t, v, c) && v.Found?
    requires Holds(s, s.genNext) ==> !At(s, s.genNext).confirmed
    ensures PendingFrom(t, c, s.genNext)
  {
    FirstConfirmedIs(s, c);
    PopKeepsFirst(s, t, v, c);
    var child := WalkThrough(s, t, c);
  }

  /** No block was emitted after verdict `i`. */
  ghost predicate LastFound(out: seq<Verdict>, i: nat)
    requires i < |out|
  {
    out[i].Found? && forall k :: i < k < |out| ==> !out[k].Found?
  }

  /** After an unconfirmed block, verdicts are Dead up to the next block, whose parent it is. */
  ghost predicate LinksAreTight(events: seq<Event>, out: seq<Verdict>) {
    forall i, j :: 0 <= i < j < |out| && LastFound(out[..j], i) && Seen(out[i].slot, IsConfirmed) !in events
                   ==> Follows(out[i].slot, out[j])
  }

  ghost predicate Follows(last: Slot, v: Verdict) {
    v.Dead? || (v.Found? && v.block.parent == last)
  }

  /** Every open link of `out` is pending in `s`. */
  ghost predicate LinksPending(events: seq<Event>, out: seq<Verdict>, s: State) {
    forall i :: 0 <= i < |out| && LastFound(out, i) && Seen(out[i].slot, IsConfirmed) !in events ==> Pending(s, out[i].slot)
  }

  lemma PushTight(events: seq<Event>, e: Event, out: seq<Verdict>, v: Verdict)
    requires LinksAreTight(events, out)
    requires forall i :: 0 <= i < |out| && LastFound(out, i) && Seen(out[i].slot, IsConfirmed) !in events + [e]
                         ==> Follows(out[i].slot, v)
    ensures LinksAreTight(events + [e], out + [v])
  {
    var all, longer := events + [e], out + [v];
    forall i, j | 0 <= i < j < |longer| && LastFound(longer[..j], i) && Seen(longer[i].slot, IsConfirmed) !in all
      ensures Follows(longer[i].slot, longer[j])
    {
      assert longer[..j] == out[..j];
      assert out[..|out|] == out;
    }
  }

  lemma EventKeepsLinks(events: seq<Event>, e: Event, s: State, out: seq<Verdict>)
    requires Inv(s) && LegalEvent(e) && Accepted(s, e) && e.Seen? && TracedState(events, s)
    requires OneBlockPerSlot(events + [e])
    requires LinksAreTight(events, out) && LinksPending(events, out, s)
    ensures LinksAreTight(events + [e], out) && LinksPending(events + [e], out, Step(s, e).0)
  {
    forall i | 0 <= i < |out| && LastFound(out, i) && Seen(out[i].slot, IsConfirmed) !in events + [e]
      ensures Pending(Step(s, e).0, out[i].slot)
    {
      EventKeepsPending(events, s, e, out[i].slot);
    }
  }

  lemma PopKeepsLinks(events: seq<Event>, s: State, out: seq<Verdict>)
    requires Inv(s) && TracedState(events, s) && Pop(s).1.Some?
    requires LinksAreTight(events, out) && LinksPending(events, out, s)
    ensures LinksAreTight(events + [Popped], out + [Pop(s).1.value])
    ensures LinksPending(events + [Popped], out + [Pop(s).1.value], Pop(s).0)
  {
    var v, t, all := Pop(s).1.value, Pop(s).0, events + [Popped];
    forall i | 0 <= i < |out| && LastFound(out, i) && Seen(out[i].slot, IsConfirmed) !in all
      ensures Follows(out[i].slot, v) && (v.Dead? ==> Pending(t, out[i].slot))
    {
      PopKeepsPending(s, out[i].slot);
    }
    PushTight(events, Popped, out, v);
    forall i | 0 <= i < |out + [v]| && LastFound(out + [v], i) && Seen((out + [v])[i].slot, IsConfirmed) !in all
      ensures Pending(t, (out + [v])[i].slot)
    {
      if i < |out| {
        assert (out + [v])[|out|] == v;
        assert LastFound(out, i) by {
          forall k | i < k < |out| ensures !out[k].Found? { assert (out + [v])[k] == out[k]; }
        }
      } else {
        PopKeeps(s);
        assert Holds(s, s.genNext) ==> Traced(events, At(s, s.genNext)) && At(s, s.genNext).slot == s.genNext;
        FoundStartsPending(s);
      }
    }
  }

  lemma StepKeepsLinks(events: seq<Event>, e: Event, s: State, out: seq<Verdict>)
    requires Inv(s) && LegalEvent(e) && Accepted(s, e) && TracedState(events, s)
    requires OneBlockPerSlot(events + [e])
    requires LinksAreTight(events, out) && LinksPending(events, out, s)
    ensures LinksAreTight(events + [e], out + Step(s, e).1) && LinksPending(events + [e], out + Step(s, e).1, Step(s, e).0)
  {
    hide LinksAreTight, LinksPending, Inv, OneBlockPerSlot, TracedState, Record, Pop;
    assert out + [] == out;
    if e.Seen? {
      EventKeepsLinks(events, e, s, out);
    } else if Pop(s).1.Some? {
      PopKeepsLinks(events, s, out);
    } else {
      PopKeeps(s);
      EmptyPopKeepsLinks(events, s, out);
    }
  }

  /**
   After an emitted block that is not itself confirmed, only Dead verdicts come
   until the next block, and that block's parent is the earlier one.
   */
  lemma {:induction false} ChainLinkage(events: seq<Event>)
    requires LegalRun(events) && OneBlockPerSlot(events)
    ensures LinksAreTight(events, Run(events).out)
    ensures LinksPending(events, Run(events).out, Run(events).state)
  {
    hide LinksAreTight, LinksPending, Inv, OneBlockPerSlot, TracedState, Step;
    if events == [] {
      NoLinks();
    } else {
      var n := |events| - 1;
      var prefix, e := events[..n], events[n];
      assert events == prefix + [e];
      Shorter(prefix, e);
      ChainLinkage(prefix);
      ForkSoundness(prefix);
      StepKeepsLinks(prefix, e, Run(prefix).state, Run(prefix).out);
    }
  }

  lemma NoLinks()
    ensures LinksAreTight([], []) && LinksPending([], [], Empty)
  {
  }

  lemma Shorter(prefix: seq<Event>, e: Event)
    requires OneBlockPerSlot(prefix + [e])
    ensures OneBlockPerSlot(prefix)
  {
    assert forall x :: x in prefix ==> x in prefix + [e];
  }

  /** A pop that answers nothing leaves the links as they are. */
  lemma EmptyPopKeepsLinks(events: seq<Event>, s: State, out: seq<Verdict>)
    requires LinksAreTight(events, out) && LinksPending(events, out, s)
    ensures LinksAreTight(events + [Popped], out) && LinksPending(events + [Popped], out, s)
  {
    hide Follows, LastFound, Pending;
    assert forall x :: x in events ==> x in events + [Popped];
  }

  // ----- a complete chain is reported exactly -----

  /** `x` is `c` or an ancestor of it inside the deque. */
  ghost predicate OnChain(s: State, c: Slot, x: Slot)
    requires Shaped(s)
    decreases c
  {
    c == x ||
    (BlockAt(s, c).Some? && s.blocks[0].slot <= BlockAt(s, c).value.parent
     && OnChain(s, BlockAt(s, c).value.parent, x))
  }

  /** The verdict that the recorded chain below `c` dictates for slot `x`. */
  ghost function Canonical(s: State, c: Slot, x: Slot): (v: Verdict)
    requires Shaped(s)
  {
    if OnChain(s, c, x) && BlockAt(s, x).Some? then Found(x, BlockAt(s, x).value) else Dead(x)
  }

  ghost function PopMany(s: State, n: nat): (r: (State, seq<Option<Verdict>>))
    requires Inv(s)
    ensures |r.1| == n
    decreases n
  {
    if n == 0 then (s, [])
    else
      PopKeeps(s);
      var (t, v) := Pop(s);
      var (u, vs) := PopMany(t, n - 1);
      (u, [v] + vs)
  }

  lemma {:induction false} OnChainBounds(s: State, c: Slot, x: Slot)
    requires Shaped(s) && Holds(s, c) && OnChain(s, c, x)
    ensures Walk(s, c) <= x <= c
    ensures BlockAt(s, Walk(s, c)).Some? ==> BlockAt(s, x).Some?
    decreases c
  {
    if c != x {
      OnChainBounds(s, BlockAt(s, c).value.parent, x);
    }
  }

  lemma {:induction false} WalkOnChain(s: State, c: Slot)
    requires Shaped(s) && Holds(s, c)
    ensures OnChain(s, c, Walk(s, c))
    decreases c
  {
    if BlockAt(s, c).Some? && s.blocks[0].slot <= BlockAt(s, c).value.parent {
      WalkOnChain(s, BlockAt(s, c).value.parent);
    }
  }

  /** Dropping entries below `x` or off the chain does not change whether `x` is on the chain. */
  lemma {:induction false} OnChainSame(s: State, t: State, c: Slot, x: Slot)
    requires Shaped(s) && Shaped(t) && Holds(s, c) && BlockAt(s, Walk(s, c)).Some?
    requires t.blocks != [] && s.blocks[0].slot <= t.blocks[0].slot <= x
    requires forall y :: Walk(s, c) <= y <= c && t.blocks[0].slot <= y && BlockAt(s, y).Some?
                         ==> BlockAt(t, y) == BlockAt(s, y)
    ensures t.blocks[0].slot <= c ==> (OnChain(s, c, x) <==> OnChain(t, c, x))
    decreases c
  {
    if t.blocks[0].slot <= c && c != x {
      assert BlockAt(s, c).Some?;
      var parent := BlockAt(s, c).value.parent;
      if s.blocks[0].slot <= parent {
        OnChainSame(s, t, parent, x);
        if parent < t.blocks[0].slot && OnChain(s, parent, x) {
          OnChainBounds(s, parent, x);
        }
      }
    }
  }

  /** The chain below the first confirmed slot is recorded down to what was already reported. */
  ghost predicate Complete(s: State, c: Slot) {
    && Shaped(s)
    && FirstConfirmed(s.blocks) == Some(c) && Holds(s, c)
    && BlockAt(s, Walk(s, c)).Some?
    && BlockAt(s, Walk(s, c)).value.parent < s.genNext
  }

  lemma CanonicalSame(s: State, t: State, c: Slot, x: Slot)
    requires Complete(s, c) && Shaped(t) && Holds(t, c) && s.blocks[0].slot <= t.blocks[0].slot
    requires x < s.blocks[0].slot || t.blocks[0].slot <= x
    requires forall y :: Walk(s, c) <= y <= c && t.blocks[0].slot <= y && BlockAt(s, y).Some?
                         ==> BlockAt(t, y) == BlockAt(s, y)
    ensures Canonical(t, c, x) == Canonical(s, c, x)
  {
    if t.blocks[0].slot <= x {
      OnChainSame(s, t, c, x);
    }
    if OnChain(s, c, x) { OnChainBounds(s, c, x); }
    if OnChain(t, c, x) { OnChainBounds(t, c, x); }
  }

  lemma PopsToCanonical(s: State, t: State, v: Verdict, c: Slot)
    requires Complete(s, c) && PopsTo(s, t, v, c)
    ensures v == Canonical(s, c, s.genNext)
  {
    WalkOnChain(s, c);
    if OnChain(s, c, s.genNext) {
      OnChainBounds(s, c, s.genNext);
    }
  }

  lemma CompleteAfterPop(s: State, t: State, v: Verdict, c: Slot)
    requires Complete(s, c) && Shaped(t) && PopsTo(s, t, v, c) && s.genNext < c
    ensures Complete(t, c)
  {
    PopKeepsFirst(s, t, v, c);
    if Walk(s, c) == s.genNext {
      var child := WalkThrough(s, t, c);
    } else {
      WalkSame(s, t, c);
    }
  }

  /** One pop on a complete chain: the canonical verdict, and the rest is unchanged. */
  lemma PopCanonical(s: State, t: State, v: Verdict, c: Slot)
    requires Complete(s, c) && Shaped(t) && PopsTo(s, t, v, c)
    ensures v == Canonical(s, c, s.genNext)
    ensures s.genNext < c ==> Complete(t, c) && forall x :: s.genNext < x <= c ==> Canonical(t, c, x) == Canonical(s, c, x)
  {
    PopsToCanonical(s, t, v, c);
    if s.genNext < c {
      CompleteAfterPop(s, t, v, c);
      forall x | s.genNext < x <= c ensures Canonical(t, c, x) == Canonical(s, c, x) {
        CanonicalSame(s, t, c, x);
      }
    }
  }

  /** The canonical verdicts for `n` slots starting at `from`. */
  ghost function Report(s: State, c: Slot, from: Slot, n: nat): seq<Option<Verdict>>
    requires Shaped(s)
    decreases n
  {
    if n == 0 then [] else [Some(Canonical(s, c, from))] + Report(s, c, from + 1, n - 1)
  }

  lemma {:induction false} ReportSame(s: State, t: State, c: Slot, from: Slot, n: nat)
    requires Shaped(s) && Shaped(t)
    requires forall x :: from <= x < from + n ==> Canonical(t, c, x) == Canonical(s, c, x)
    ensures Report(t, c, from, n) == Report(s, c, from, n)
    decreases n
  {
    if n > 0 {
      ReportSame(s, t, c, from + 1, n - 1);
    }
  }

  /**
   When the chain of the first confirmed slot `c` is fully recorded, the pops up
   to `c` report exactly that chain: its blocks as found, every other slot dead.
   */
  lemma {:induction false} CompleteChainReportedExactly(s: State, c: Slot, n: nat)
    requires Inv(s) && Complete(s, c) && s.genNext + n <= c + 1
    ensures PopMany(s, n).1 == Report(s, c, s.genNext, n)
    decreases n
  {
    hide Canonical, OnChain, Pop, PopsTo, Walk, FirstConfirmed;
    if n > 0 {
      PopKeeps(s);
      PopEffect(s, c);
      var (t, v) := Pop(s);
      PopCanonical(s, t, v.value, c);
      if n > 1 {
        CompleteChainReportedExactly(t, c, n - 1);
        ReportSame(s, t, c, s.genNext + 1, n - 1);
      }
    }
  }
}
