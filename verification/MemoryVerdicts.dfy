/**
 What the fork resolver answers, in terms of the stream alone: the verdict for a
 slot follows from which blocks, dead slots and confirmations have been reported,
 not from how the deque has been edited on the way.
 */
module MemoryVerdicts {
  import opened Common
  import opened Memory
  import opened MemoryRuns
  import opened MemoryChains

  // ----- the stream's own account -----

  /** The block reported last for a slot. */
  ghost function BlockOf(events: seq<Event>, slot: Slot): Option<Block> {
    if events == [] then None
    else
      var n := |events| - 1;
      if events[n].Seen? && events[n].slot == slot && events[n].mark.IsBlock? then Some(events[n].mark.block)
      else BlockOf(events[..n], slot)
  }

  /** `c` is the lowest slot from `from` on that is confirmed. */
  ghost predicate FirstConfirmation(events: seq<Event>, from: Slot, c: Slot) {
    && from <= c && Seen(c, IsConfirmed) in events
    && forall d: Slot :: from <= d < c ==> Seen(d, IsConfirmed) !in events
  }

  /** Where the reported parent links lead from `slot`, as long as they do not pass below `from`. */
  ghost function Descend(events: seq<Event>, from: Slot, slot: Slot): Slot
    requires forall e :: e in events ==> LegalEvent(e)
    decreases slot
  {
    BlockOfIsSeen(events, slot);
    match BlockOf(events, slot)
    case Some(b) => if from <= b.parent then Descend(events, from, b.parent) else slot
    case None => slot
  }

  /**
   The verdict for `slot` when `c` is the next confirmed slot. The chain of `c`
   either leads to a slot that nothing is known about, and then `slot` is dead
   only if the stream said so; or it passes `slot`, which is then dead; or it
   ends on it.
   */
  ghost function Judged(events: seq<Event>, slot: Slot, c: Slot): Verdict
    requires forall e :: e in events ==> LegalEvent(e)
  {
    var last := Descend(events, slot, c);
    match BlockOf(events, last)
    case None => if Seen(slot, IsDead) in events then Dead(slot) else Missed(slot)
    case Some(b) => if last == slot then Found(slot, b) else Dead(slot)
  }

  lemma {:induction false} BlockOfIsSeen(events: seq<Event>, slot: Slot)
    ensures BlockOf(events, slot).Some? ==> Seen(slot, IsBlock(BlockOf(events, slot).value)) in events
    ensures BlockOf(events, slot).None? ==> forall b :: Seen(slot, IsBlock(b)) !in events
  {
    if events != [] {
      var n := |events| - 1;
      BlockOfIsSeen(events[..n], slot);
      assert events == events[..n] + [events[n]];
    }
  }

  lemma BlockOfMore(events: seq<Event>, e: Event, slot: Slot)
    ensures BlockOf(events + [e], slot)
            == if e.Seen? && e.slot == slot && e.mark.IsBlock? then Some(e.mark.block) else BlockOf(events, slot)
  {
    assert (events + [e])[..|events|] == events;
  }

  // ----- how the deque agrees with it -----

  ghost predicate Unseen(events: seq<Event>, slot: Slot) {
    forall mark :: Seen(slot, mark) !in events
  }

  ghost predicate Intact(events: seq<Event>, info: Info) {
    && info.block == BlockOf(events, info.slot)
    && (info.dead <==> Seen(info.slot, IsDead) in events)
  }

  /** The walk from the first confirmed slot `c` has passed `slot`, which is marked dead. */
  ghost predicate BuriedUnder(s: State, c: Slot, slot: Slot) {
    && Shaped(s) && FirstConfirmed(s.blocks) == Some(c) && Holds(s, c) && BlockAt(s, Walk(s, c)).Some?
    && slot < Walk(s, c) && Holds(s, slot) && At(s, slot).dead && s.genNext == s.blocks[0].slot
  }

  ghost predicate Buried(s: State, slot: Slot) {
    exists c :: BuriedUnder(s, c, slot)
  }

  ghost predicate FlagsTied(events: seq<Event>, s: State) {
    && (forall x: Slot :: s.genNext <= x && !Holds(s, x) ==> Unseen(events, x))
    && (forall x: Slot :: Holds(s, x) ==> (At(s, x).confirmed <==> Seen(x, IsConfirmed) in events))
    && (forall x: Slot :: Holds(s, x) && Seen(x, IsDead) in events ==> At(s, x).dead)
  }

  /** The deque says what the stream said, except for the slots that have been buried. */
  ghost predicate Tied(events: seq<Event>, s: State) {
    && FlagsTied(events, s)
    && forall x: Slot :: Holds(s, x) ==> Intact(events, At(s, x)) || Buried(s, x)
  }

  // ----- every event keeps the agreement -----

  lemma RecordFlags(events: seq<Event>, s: State, slot: Slot, mark: Mark)
    requires Inv(s) && slot > 0 && FlagsTied(events, s)
    ensures FlagsTied(events + [Seen(slot, mark)], Record(s, slot, mark))
  {
    hide ParentsBelow, ConfirmedPlaced;
    var t, all := Record(s, slot, mark), events + [Seen(slot, mark)];
    AddSlotKeeps(s, slot);
    RecordEdits(s, slot, mark);
    RecordHolds(s, slot, mark);
    assert forall e :: e in all <==> e in events || e == Seen(slot, mark);
    forall x: Slot | t.genNext <= x && !Holds(t, x) ensures Unseen(all, x) {
      assert Unseen(events, x);
    }
    forall x: Slot | Holds(t, x) && !Holds(s, x) ensures Unseen(events, x) {
      assert s.genNext <= x;
    }
  }

  /** A slot that has not been reported is in the deque once something is said about it. */
  lemma RecordHolds(s: State, slot: Slot, mark: Mark)
    requires Inv(s) && slot > 0
    ensures var t := Record(s, slot, mark);
            && (t.genNext <= slot ==> Holds(t, slot)) && (s.genNext > 0 ==> t.genNext == s.genNext)
            && (s.genNext == 0 ==> s.blocks == [])
            && (t.blocks != [] ==> t.genNext <= t.blocks[0].slot)
  {
    AddSlotKeeps(s, slot);
  }

  lemma RecordIntact(events: seq<Event>, s: State, slot: Slot, mark: Mark, x: Slot)
    requires Inv(s) && slot > 0 && FlagsTied(events, s) && Holds(Record(s, slot, mark), x)
    requires Holds(s, x) ==> Intact(events, At(s, x))
    ensures Inv(s) && Contiguous(Record(s, slot, mark).blocks) ==> Intact(events + [Seen(slot, mark)], At(Record(s, slot, mark), x))
  {
    hide ParentsBelow, ConfirmedPlaced;
    var t, all := Record(s, slot, mark), events + [Seen(slot, mark)];
    RecordEdits(s, slot, mark);
    RecordHolds(s, slot, mark);
    BlockOfMore(events, Seen(slot, mark), x);
    if !Holds(s, x) {
      assert Unseen(events, x);
      BlockOfIsSeen(events, x);
    }
  }

  lemma RecordBuried(events: seq<Event>, s: State, slot: Slot, mark: Mark, x: Slot)
    requires Inv(s) && Legal(slot, mark) && Accepts(s, slot, mark) && TracedState(events, s)
    requires OneBlockPerSlot(events + [Seen(slot, mark)]) && Buried(s, x)
    ensures Buried(Record(s, slot, mark), x)
  {
    var c: Slot :| BuriedUnder(s, c, x);
    var t := Record(s, slot, mark);
    RecordKeeps(s, slot, mark);
    RecordEdits(s, slot, mark);
    RecordHolds(s, slot, mark);
    SameBlocks(events, s, t, slot, mark);
    assert c <= s.confirmed by { SomeConfirmed(s); }
    BuriedStays(s, t, slot, mark, c, x);
  }

  lemma BuriedStays(s: State, t: State, slot: Slot, mark: Mark, c: Slot, x: Slot)
    requires Inv(s) && Inv(t) && Edited(s, t, slot, mark) && BuriedUnder(s, c, x)
    requires t.genNext == s.genNext && (mark.IsConfirmed? ==> c < slot)
    requires forall y :: BlockAt(s, y).Some? ==> BlockAt(t, y) == BlockAt(s, y)
    ensures Buried(t, x)
  {
    hide ConfirmedPlaced;
    assert t.blocks[0].slot == s.blocks[0].slot by {
      assert Holds(s, s.blocks[0].slot);
    }
    EditKeepsPending(s, t, slot, mark, c, BlockAt(s, Walk(s, c)).value.parent);
    WalkSame(s, t, c);
    assert BuriedUnder(t, c, x);
  }

  lemma RecordTied(events: seq<Event>, s: State, slot: Slot, mark: Mark)
    requires Inv(s) && Legal(slot, mark) && Accepts(s, slot, mark) && TracedState(events, s)
    requires OneBlockPerSlot(events + [Seen(slot, mark)]) && Tied(events, s)
    ensures Tied(events + [Seen(slot, mark)], Record(s, slot, mark))
  {
    hide FlagsTied, Intact, Buried, OneBlockPerSlot, Accepts, Record;
    RecordFlags(events, s, slot, mark);
    RecordKeeps(s, slot, mark);
    RecordEdits(s, slot, mark);
    var t := Record(s, slot, mark);
    forall x: Slot | Holds(t, x) ensures Intact(events + [Seen(slot, mark)], At(t, x)) || Buried(t, x) {
      if Holds(s, x) && Buried(s, x) {
        RecordBuried(events, s, slot, mark, x);
      } else {
        RecordIntact(events, s, slot, mark, x);
      }
    }
  }

  /** The agreement does not depend on pops in the stream's account. */
  lemma PoppedSaysNothing(events: seq<Event>, s: State)
    ensures Tied(events, s) ==> Tied(events + [Popped], s)
  {
    hide Buried;
    assert forall e :: e in events + [Popped] <==> e in events || e == Popped;
    forall x: Slot ensures BlockOf(events + [Popped], x) == BlockOf(events, x) {
      BlockOfMore(events, Popped, x);
    }
    if Tied(events, s) {
      assert forall x: Slot :: Unseen(events, x) ==> Unseen(events + [Popped], x);
      assert forall info :: Intact(events, info) ==> Intact(events + [Popped], info);
    }
  }

  /** Slots at or above the end of the walk are never buried. */
  lemma AboveBottom(s: State, c: Slot, x: Slot)
    requires Inv(s) && FirstConfirmed(s.blocks) == Some(c) && Holds(s, c) && Buried(s, x)
    ensures x < Walk(s, c) && BlockAt(s, Walk(s, c)).Some? && s.genNext == s.blocks[0].slot
  {
    var d :| BuriedUnder(s, d, x);
  }

  /** The flags after a pop: the reported slot no longer matters, the other entries keep theirs. */
  lemma FlagsPopped(events: seq<Event>, s: State, t: State)
    requires FlagsTied(events, s) && t.genNext == s.genNext + 1
    requires forall x: Slot :: s.genNext < x ==> (Holds(t, x) <==> Holds(s, x))
    requires forall x: Slot :: Holds(t, x) ==>
               && s.genNext < x && Holds(s, x)
               && At(t, x).confirmed == At(s, x).confirmed && (At(s, x).dead ==> At(t, x).dead)
    ensures FlagsTied(events, t)
  {
    hide Unseen;
  }

  lemma AllIntact(events: seq<Event>, s: State, c: Slot)
    requires Inv(s) && Tied(events, s) && FirstConfirmed(s.blocks) == Some(c) && Holds(s, c)
    requires BlockAt(s, Walk(s, c)).None? || s.genNext < s.blocks[0].slot
    ensures forall x: Slot :: Holds(s, x) ==> Intact(events, At(s, x))
  {
    hide Intact, FlagsTied, Buried, Walk;
    forall x: Slot | Holds(s, x) ensures Intact(events, At(s, x)) {
      if Buried(s, x) {
        AboveBottom(s, c, x);
      }
    }
  }

  /** A pop that leaves the entries as they are, or takes the front one away. */
  lemma PlainPopTied(events: seq<Event>, s: State, t: State)
    requires FlagsTied(events, s) && forall x: Slot :: Holds(s, x) ==> Intact(events, At(s, x))
    requires t.genNext == s.genNext + 1 && s.blocks != [] && s.genNext <= s.blocks[0].slot
    requires Contiguous(s.blocks)
    requires t.blocks == if s.genNext == s.blocks[0].slot then s.blocks[1..] else s.blocks
    ensures Tied(events, t)
  {
    hide Intact, FlagsTied, Buried;
    assert s.genNext == s.blocks[0].slot ==> forall i :: 0 <= i < |t.blocks| ==> t.blocks[i] == s.blocks[i + 1];
    assert forall x: Slot :: Holds(t, x) <==> Holds(s, x) && s.genNext < x;
    assert forall x: Slot :: Holds(t, x) ==> At(t, x) == At(s, x);
    FlagsPopped(events, s, t);
  }

  /** A pop while the walk ends at a recorded block. */
  lemma PopTied(events: seq<Event>, s: State, c: Slot)
    requires Inv(s) && Tied(events, s) && FirstConfirmed(s.blocks) == Some(c) && Holds(s, c) && BlockAt(s, Walk(s, c)).Some?
    ensures Tied(events, Pop(s).0)
  {
    hide Tied, Intact, FlagsTied, Buried, Pop, Walk, ConfirmedPlaced, FrontPopped;
    PopEffect(s, c);
    var t, v := Pop(s).0, Pop(s).1.value;
    if s.genNext == s.blocks[0].slot {
      FrontTied(events, s, t, v, c);
    } else {
      AllIntact(events, s, c);
      TiedFlags(events, s);
      PlainPopTied(events, s, t);
    }
  }

  lemma TiedFlags(events: seq<Event>, s: State)
    requires Tied(events, s)
    ensures FlagsTied(events, s)
  {
  }

  lemma FrontTied(events: seq<Event>, s: State, t: State, v: Verdict, c: Slot)
    requires Inv(s) && Inv(t) && Tied(events, s) && FirstConfirmed(s.blocks) == Some(c) && Holds(s, c) && BlockAt(s, Walk(s, c)).Some?
    requires PopsTo(s, t, v, c) && s.genNext == s.blocks[0].slot
    ensures Tied(events, t)
  {
    hide Intact, FlagsTied, Buried, Walk, ConfirmedPlaced, ParentsBelow;
    var bottom := Walk(s, c);
    FlagsPopped(events, s, t);
    forall x: Slot | Holds(t, x) ensures Intact(events, At(t, x)) || Buried(t, x) {
      if x < bottom {
        BelowBottom(s, t, v, c, x);
      } else {
        if Buried(s, x) {
          AboveBottom(s, c, x);
        }
        SameIntact(events, At(s, x), At(t, x));
      }
    }
  }

  lemma SameIntact(events: seq<Event>, a: Info, b: Info)
    requires Intact(events, a) && b.slot == a.slot && b.block == a.block && b.dead == a.dead
    ensures Intact(events, b)
  {
  }

  lemma BelowBottom(s: State, t: State, v: Verdict, c: Slot, x: Slot)
    requires Inv(s) && Inv(t) && FirstConfirmed(s.blocks) == Some(c) && Holds(s, c) && BlockAt(s, Walk(s, c)).Some?
    requires PopsTo(s, t, v, c) && s.genNext == s.blocks[0].slot && Holds(t, x) && x < Walk(s, c)
    ensures Buried(t, x)
  {
    hide ConfirmedPlaced;
    PopKeepsFirst(s, t, v, c);
    WalkSame(s, t, c);
    assert BuriedUnder(t, c, x);
  }

  /** A pop while the walk ends at a slot nothing is known about: at most the front entry goes. */
  lemma PopUnknownTied(events: seq<Event>, s: State, c: Slot)
    requires Inv(s) && Tied(events, s) && FirstConfirmed(s.blocks) == Some(c) && Holds(s, c) && BlockAt(s, Walk(s, c)).None?
    ensures Tied(events, Pop(s).0)
  {
    hide Tied, Intact, FlagsTied, Buried, Walk, ConfirmedPlaced;
    SomeConfirmed(s);
    AllIntact(events, s, c);
    TiedFlags(events, s);
    PlainPopTied(events, s, Pop(s).0);
  }

  /** Over every run the deque agrees with the stream's own account. */
  lemma {:induction false} AlwaysTied(events: seq<Event>)
    requires LegalRun(events) && OneBlockPerSlot(events)
    ensures Tied(events, Run(events).state)
  {
    hide Tied, Inv, OneBlockPerSlot, TracedState, Walk, FirstConfirmed;
    if events == [] {
      NothingTied();
    } else {
      var n := |events| - 1;
      var prefix, e := events[..n], events[n];
      assert events == prefix + [e];
      Shorter(prefix, e);
      AlwaysTied(prefix);
      ForkSoundness(prefix);
      StepTied(prefix, e, Run(prefix).state);
    }
  }

  lemma NothingTied()
    ensures Tied([], Empty)
  {
  }

  lemma StepTied(events: seq<Event>, e: Event, s: State)
    requires Inv(s) && LegalEvent(e) && Accepted(s, e) && TracedState(events, s) && OneBlockPerSlot(events + [e]) && Tied(events, s)
    ensures Tied(events + [e], Step(s, e).0)
  {
    hide Tied, OneBlockPerSlot, TracedState, Walk, Record, ConfirmedPlaced, ParentsBelow;
    if e.Seen? {
      RecordTied(events, s, e.slot, e.mark);
    } else {
      SomeConfirmed(s);
      if FirstConfirmed(s.blocks).Some? {
        var c := FirstConfirmed(s.blocks).value;
        if BlockAt(s, Walk(s, c)).Some? {
          PopTied(events, s, c);
        } else {
          PopUnknownTied(events, s, c);
        }
      }
      PoppedSaysNothing(events, Pop(s).0);
    }
  }

  // ----- the verdict is the one the stream's account dictates -----

  /** The deque's first confirmed slot is the stream's. */
  lemma SameConfirmation(events: seq<Event>, s: State, c: Slot)
    requires Inv(s) && FlagsTied(events, s)
    ensures FirstConfirmation(events, s.genNext, c) <==> FirstConfirmed(s.blocks) == Some(c)
  {
    FirstConfirmedIs(s, c);
    forall d: Slot | s.genNext <= d && Seen(d, IsConfirmed) in events ensures Holds(s, d) && At(s, d).confirmed {
      assert !Unseen(events, d);
    }
  }

  /** The deque's walk is the stream's, up to a last link that leaves the deque. */
  lemma {:induction false} SameWalk(events: seq<Event>, s: State, slot: Slot, c: Slot)
    requires forall e :: e in events ==> LegalEvent(e)
    requires Inv(s) && Tied(events, s) && FirstConfirmed(s.blocks) == Some(c) && Holds(s, c)
    requires Holds(s, slot) && Walk(s, slot) == Walk(s, c)
    ensures var last, bottom := Descend(events, s.genNext, slot), Walk(s, c);
            if BlockAt(s, bottom).Some? && s.genNext <= BlockAt(s, bottom).value.parent then
              last == BlockAt(s, bottom).value.parent && BlockOf(events, last).None?
            else last == bottom && BlockOf(events, last) == BlockAt(s, bottom)
    decreases slot
  {
    hide Buried, FlagsTied, FirstConfirmed, ConfirmedPlaced;
    if Buried(s, slot) {
      AboveBottom(s, c, slot);
    }
    assert Intact(events, At(s, slot));
    var block := BlockAt(s, slot);
    if block.Some? {
      var parent := block.value.parent;
      if s.blocks[0].slot <= parent {
        SameWalk(events, s, parent, c);
      } else if s.genNext <= parent {
        UnknownBlock(events, s, parent);
      }
    }
  }

  lemma UnknownBlock(events: seq<Event>, s: State, slot: Slot)
    requires FlagsTied(events, s) && s.genNext <= slot && !Holds(s, slot)
    ensures BlockOf(events, slot).None?
  {
    assert Unseen(events, slot);
    BlockOfIsSeen(events, slot);
  }

  lemma PopIsJudged(events: seq<Event>, s: State, c: Slot)
    requires forall e :: e in events ==> LegalEvent(e)
    requires Inv(s) && Tied(events, s) && FirstConfirmed(s.blocks) == Some(c) && Holds(s, c)
    ensures Pop(s).1 == Some(Judged(events, s.genNext, c))
  {
    SomeConfirmed(s);
    SameWalk(events, s, c, c);
    var bottom, first := Walk(s, c), s.blocks[0].slot;
    if s.genNext < first {
      assert Unseen(events, s.genNext);
    } else if BlockAt(s, bottom).Some? {
      PopEffect(s, c);
    } else {
      if Buried(s, first) {
        AboveBottom(s, c, first);
      }
      assert Intact(events, At(s, first));
    }
  }

  /**
   Over every run in which no slot is reported with two blocks, the next pop
   answers exactly when a slot that has not been reported yet is confirmed, and
   its verdict is the one the stream dictates.
   */
  lemma VerdictsAreJudged(events: seq<Event>)
    requires LegalRun(events) && OneBlockPerSlot(events)
    ensures var next := FirstSlot(events) + |Run(events).out|;
      && Run(events + [Popped]).Reached?
      && ((forall c: Slot :: !FirstConfirmation(events, next, c)) ==> Run(events + [Popped]).out == Run(events).out)
      && forall c: Slot :: FirstConfirmation(events, next, c) ==>
           Run(events + [Popped]).out == Run(events).out + [Judged(events, next, c)]
  {
    hide Tied, Inv, Judged, FirstConfirmation, Run, FirstSlot, Pop, OneBlockPerSlot;
    var s := Run(events).state;
    AlwaysTied(events);
    OrderedEmission(events);
    OnePopMore(events);
    NextPop(events, s);
  }

  lemma OnePopMore(events: seq<Event>)
    requires LegalRun(events)
    ensures var s := Run(events).state;
      Run(events + [Popped]) == Reached(Pop(s).0, Run(events).out + if Pop(s).1.Some? then [Pop(s).1.value] else [])
  {
    assert (events + [Popped])[..|events|] == events;
  }

  lemma NextPop(events: seq<Event>, s: State)
    requires (forall e :: e in events ==> LegalEvent(e)) && Inv(s) && Tied(events, s)
    ensures (forall c: Slot :: !FirstConfirmation(events, s.genNext, c)) ==> Pop(s).1.None?
    ensures forall c: Slot :: FirstConfirmation(events, s.genNext, c) ==> Pop(s).1 == Some(Judged(events, s.genNext, c))
  {
    hide Walk, Judged, FirstConfirmation;
    SomeConfirmed(s);
    if FirstConfirmed(s.blocks).Some? {
      SameConfirmation(events, s, FirstConfirmed(s.blocks).value);
    }
    forall c: Slot | FirstConfirmation(events, s.genNext, c) ensures Pop(s).1 == Some(Judged(events, s.genNext, c)) {
      SameConfirmation(events, s, c);
      PopIsJudged(events, s, c);
    }
  }

  // ----- a slot known to be dead is never fetched -----

  ghost predicate DeadsKept(events: seq<Event>, s: State) {
    forall x: Slot :: s.genNext <= x && Seen(x, IsDead) in events ==> Holds(s, x) && At(s, x).dead
  }

  lemma RecordDeads(events: seq<Event>, s: State, slot: Slot, mark: Mark)
    requires Inv(s) && slot > 0 && DeadsKept(events, s)
    ensures DeadsKept(events + [Seen(slot, mark)], Record(s, slot, mark))
  {
    RecordEdits(s, slot, mark);
    RecordHolds(s, slot, mark);
    assert forall e :: e in events + [Seen(slot, mark)] <==> e in events || e == Seen(slot, mark);
  }

  /** A pop keeps the dead marks above the slot it reports, and misses that slot only if it is not marked. */
  lemma PopDeads(s: State)
    requires Inv(s) && Pop(s).1.Some?
    ensures var (t, v) := Pop(s);
      && (forall x: Slot :: Holds(s, x) && s.genNext < x ==> Holds(t, x) && (At(s, x).dead ==> At(t, x).dead))
      && (v.value.Missed? ==> !Holds(s, s.genNext) || !At(s, s.genNext).dead)
  {
    SomeConfirmed(s);
    var c := FirstConfirmed(s.blocks).value;
    EmitDeads(s, Walk(s, c));
  }

  lemma EmitDeads(s: State, bottom: Slot)
    requires Contiguous(s.blocks) && Holds(s, bottom) && s.genNext <= s.blocks[0].slot
    requires BlockAt(s, bottom).Some? ==> BlockAt(s, bottom).value.parent < s.blocks[0].slot
    ensures var (t, v) := Emit(s, bottom);
      && (forall x: Slot :: Holds(s, x) && s.genNext < x ==> Holds(t, x) && (At(s, x).dead ==> At(t, x).dead))
      && (v.Missed? ==> !Holds(s, s.genNext) || !At(s, s.genNext).dead)
  {
    var t, first := Emit(s, bottom).0, s.blocks[0].slot;
    if s.genNext == first {
      var blocks := if BlockAt(s, bottom).Some? then Bury(s.blocks, bottom - first) else s.blocks;
      assert t.blocks == blocks[1..];
      assert forall i :: 0 <= i < |t.blocks| ==> t.blocks[i] == blocks[i + 1];
    }
  }

  /** Over every run a slot that the stream has called dead is not reported as missed. */
  lemma {:induction false} DeadIsNotMissed(events: seq<Event>, slot: Slot)
    requires LegalRun(events)
    ensures DeadsKept(events, Run(events).state)
    ensures Seen(slot, IsDead) in events ==> Pop(Run(events).state).1 != Some(Missed(slot))
  {
    hide Inv, Record, Pop;
    if events != [] {
      var n := |events| - 1;
      assert events == events[..n] + [events[n]];
      DeadIsNotMissed(events[..n], slot);
      StepDeads(events[..n], events[n], Run(events[..n]).state);
    }
    MissedIsNotDead(events, Run(events).state, slot);
  }

  lemma StepDeads(events: seq<Event>, e: Event, s: State)
    requires Inv(s) && LegalEvent(e) && Accepted(s, e) && DeadsKept(events, s)
    ensures DeadsKept(events + [e], Step(s, e).0)
  {
    hide Record, Pop, Inv;
    if e.Seen? {
      RecordDeads(events, s, e.slot, e.mark);
    } else {
      PopKeeps(s);
      if Pop(s).1.Some? {
        PopDeads(s);
      }
      assert forall x: Slot :: Seen(x, IsDead) in events + [e] <==> Seen(x, IsDead) in events;
    }
  }

  lemma MissedIsNotDead(events: seq<Event>, s: State, slot: Slot)
    requires Inv(s) && DeadsKept(events, s)
    ensures Seen(slot, IsDead) in events ==> Pop(s).1 != Some(Missed(slot))
  {
    hide Pop;
    PopKeeps(s);
    if Pop(s).1.Some? {
      PopDeads(s);
    }
  }
}
