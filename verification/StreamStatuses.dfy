/**
 The slot statuses that the stream source passes on (src/source/stream.rs), in
 terms of the messages received so far: what each message is answered with,
 and when the stream fails.
 */
module StreamStatuses {
  import opened Common
  import opened Assembly

  /** The slot of the first bank message; slots up to it are ignored. */
  ghost function FirstOf(us: seq<Update>): Option<Slot> {
    if us == [] then None
    else
      var n := |us| - 1;
      var before := FirstOf(us[..n]);
      if before.Some? then before else if us[n].CreatedBank? then Some(us[n].slot) else None
  }

  /** A status message of the slot that was not ignored. */
  ghost predicate Told(us: seq<Update>, slot: Slot, u: Update) {
    exists i :: 0 <= i < |us| && us[i] == u && FirstOf(us[..i]).Some?
  }

  ghost predicate Banked(us: seq<Update>, slot: Slot) {
    exists p: Slot :: CreatedBank(slot, Some(p)) in us
  }

  /** No finalization above the slot has removed its entry. */
  ghost predicate Unpruned(us: seq<Update>, slot: Slot) {
    forall i :: 0 <= i < |us| && us[i].SlotFinalized? ==> us[i].slot <= slot
  }

  /** The slot's entry says what the messages said. */
  ghost predicate Known(us: seq<Update>, slot: Slot, info: SlotInfo) {
    && (forall p: Slot :: info.parent == Some(p) <==> CreatedBank(slot, Some(p)) in us)
    && (info.status == Dead <==> Told(us, slot, SlotDead(slot)))
    && (info.status == Confirmed <==> Told(us, slot, SlotConfirmed(slot)))
  }

  ghost function After(us: seq<Update>): Source {
    Run(Source(map[], None), us).0
  }

  ghost predicate Healthy(us: seq<Update>) {
    Failed !in Run(Source(map[], None), us).1
  }

  lemma FirstOfMore(us: seq<Update>, u: Update)
    ensures FirstOf(us + [u]) == if FirstOf(us).Some? then FirstOf(us) else if u.CreatedBank? then Some(u.slot) else None
  {
    assert (us + [u])[..|us|] == us;
  }

  lemma ToldMore(us: seq<Update>, u: Update, slot: Slot, v: Update)
    ensures Told(us + [u], slot, v) <==> Told(us, slot, v) || (u == v && FirstOf(us).Some?)
  {
    var more := us + [u];
    assert more[|us|] == u && more[..|us|] == us;
    forall i | 0 <= i < |us| ensures more[..i] == us[..i] && more[i] == us[i] {
    }
    if Told(us, slot, v) {
      var i :| 0 <= i < |us| && us[i] == v && FirstOf(us[..i]).Some?;
      assert more[i] == v && FirstOf(more[..i]).Some?;
    }
    if Told(more, slot, v) {
      var i :| 0 <= i < |more| && more[i] == v && FirstOf(more[..i]).Some?;
      if i < |us| {
        assert us[i] == v && FirstOf(us[..i]).Some?;
      }
    }
  }

  lemma {:induction false} NothingBefore(us: seq<Update>, slot: Slot)
    requires FirstOf(us).None?
    ensures forall p :: CreatedBank(slot, p) !in us
    ensures forall v :: !Told(us, slot, v)
  {
    if us != [] {
      var n := |us| - 1;
      NothingBefore(us[..n], slot);
      assert us == us[..n] + [us[n]];
      forall v ensures !Told(us, slot, v) {
        ToldMore(us[..n], us[n], slot, v);
      }
    }
  }

  lemma RunMore(us: seq<Update>, u: Update)
    ensures After(us + [u]) == Handle(After(us), u).0
    ensures Healthy(us + [u]) <==> Healthy(us) && Handle(After(us), u).1 != Failed
  {
    hide Handle;
    assert (us + [u])[..|us|] == us;
  }

  lemma {:induction false} FirstIs(us: seq<Update>)
    ensures After(us).first == FirstOf(us)
  {
    hide Run;
    if us == [] {
      EmptyRun();
    } else {
      var n := |us| - 1;
      assert us == us[..n] + [us[n]];
      FirstIs(us[..n]);
      RunMore(us[..n], us[n]);
      FirstOfMore(us[..n], us[n]);
    }
  }

  lemma EmptyRun()
    ensures After([]) == Source(map[], None)
  {
  }

  /** One message about a slot above the first one. */
  lemma KnownNext(us: seq<Update>, s: Source, u: Update, slot: Slot)
    requires Known(us, slot, Info(s, slot)) && s.first == FirstOf(us) && Handle(s, u).1 != Failed
    requires u.SlotFinalized? ==> u.slot <= slot
    requires FirstOf(us + [u]).Some? ==> FirstOf(us + [u]).value < slot
    ensures Known(us + [u], slot, Info(Handle(s, u).0, slot))
  {
    hide Told, FirstOf;
    FirstOfMore(us, u);
    ToldMore(us, u, slot, SlotDead(slot));
    ToldMore(us, u, slot, SlotConfirmed(slot));
    if u.Other? || u.Unexpected? || u.SlotFinalized? || u.slot != slot {
      OthersKeep(s, u, slot);
    }
  }

  /** Over every run that does not fail, a slot's entry says what the messages said. */
  lemma {:induction false} AlwaysKnown(us: seq<Update>, slot: Slot)
    requires Healthy(us) && Unpruned(us, slot) && (FirstOf(us).Some? ==> FirstOf(us).value < slot)
    ensures Known(us, slot, Info(After(us), slot))
  {
    hide Run, Handle, Known;
    if us == [] {
      EmptyRun();
      NothingKnown(slot);
    } else {
      var n := |us| - 1;
      assert us == us[..n] + [us[n]];
      RunMore(us[..n], us[n]);
      FirstOfMore(us[..n], us[n]);
      AlwaysKnown(us[..n], slot);
      FirstIs(us[..n]);
      KnownNext(us[..n], After(us[..n]), us[n], slot);
    }
  }

  lemma NothingKnown(slot: Slot)
    ensures Known([], slot, NewSlot)
  {
  }

  /**
   What a status message is answered with. Before the first bank, and for slots
   up to its slot, it is ignored. Above them a bank must have come first; the
   first status is passed on with the bank's parent, a repeated confirmation is
   ignored, and any other second status fails the stream.
   */
  lemma StatusAnswer(us: seq<Update>, slot: Slot, u: Update)
    requires Healthy(us) && Unpruned(us, slot) && (u == SlotDead(slot) || u == SlotConfirmed(slot))
    ensures var out, status := Handle(After(us), u).1, if u.SlotDead? then Dead else Confirmed;
      if FirstOf(us).None? || slot <= FirstOf(us).value then out == Quiet
      else if !Banked(us, slot) then out == Failed
      else if Told(us, slot, SlotDead(slot)) then out == Failed
      else if Told(us, slot, SlotConfirmed(slot)) then out == if u.SlotConfirmed? then Quiet else Failed
      else out.Report? && out.slot == slot && out.status == status && CreatedBank(slot, Some(out.parent)) in us
  {
    hide Told;
    FirstIs(us);
    if FirstOf(us).Some? && FirstOf(us).value < slot {
      AlwaysKnown(us, slot);
      assert Banked(us, slot) <==> Info(After(us), slot).parent.Some? by {
        if Info(After(us), slot).parent.Some? {
          assert CreatedBank(slot, Some(Info(After(us), slot).parent.value)) in us;
        }
      }
    }
  }

  /** A bank message names the parent of a slot above the first one once, before any status. */
  lemma BankAnswer(us: seq<Update>, slot: Slot, parent: Option<Slot>)
    requires Healthy(us) && Unpruned(us, slot)
    ensures var out := Handle(After(us), CreatedBank(slot, parent)).1;
      if FirstOf(us).None? || slot <= FirstOf(us).value then out == Quiet
      else out == if parent.None? || Banked(us, slot) then Failed else Quiet
  {
    hide Told;
    FirstIs(us);
    if FirstOf(us).Some? && FirstOf(us).value < slot {
      AlwaysKnown(us, slot);
      StatusNeedsBank(us, slot);
      assert Banked(us, slot) <==> Info(After(us), slot).parent.Some? by {
        if Info(After(us), slot).parent.Some? {
          assert CreatedBank(slot, Some(Info(After(us), slot).parent.value)) in us;
        }
      }
    }
  }

  /** In a run that does not fail a slot gets no status before its bank. */
  lemma {:induction false} StatusNeedsBank(us: seq<Update>, slot: Slot)
    requires Healthy(us) && Unpruned(us, slot) && (FirstOf(us).Some? ==> FirstOf(us).value < slot)
    ensures Info(After(us), slot).status != Created ==> Info(After(us), slot).parent.Some?
  {
    hide Run;
    if us == [] {
      EmptyRun();
    } else {
      var n := |us| - 1;
      assert us == us[..n] + [us[n]];
      RunMore(us[..n], us[n]);
      FirstOfMore(us[..n], us[n]);
      StatusNeedsBank(us[..n], slot);
      FirstIs(us[..n]);
      if us[n].Other? || us[n].Unexpected? || us[n].SlotFinalized? || us[n].slot != slot {
        OthersKeep(After(us[..n]), us[n], slot);
      }
    }
  }

  /** A finalization above the first slot is passed on with its parent, and forgets exactly the slots below. */
  lemma FinalizedAnswer(us: seq<Update>, slot: Slot, parent: Option<Slot>)
    ensures var (t, out) := Handle(After(us), SlotFinalized(slot, parent));
      if FirstOf(us).None? || slot <= FirstOf(us).value then t == After(us) && out == Quiet
      else
        && out == (if parent.Some? then FinalizedSlot(slot, parent.value) else Failed)
        && forall k: Slot :: (k in t.slots <==> k in After(us).slots && slot <= k) && (k in t.slots ==> t.slots[k] == After(us).slots[k])
  {
    FirstIs(us);
  }

  /** A block is built by the message that completes it, and only for slots above the first one. */
  lemma BlockIff(s: Source, u: Update)
    ensures var out := Handle(s, u).1;
      out.Block? <==>
        && (u.BlockMeta? || (u.Transaction? && u.body.Some?))
        && Completes(s, u) && MetaFor(s, u).value.rewardsValid
  {
  }

  /** Any other message fails the stream only if it makes no sense, or completes a block whose rewards do not decode. */
  lemma OtherFailsIff(s: Source, u: Update)
    requires !u.CreatedBank? && !u.SlotDead? && !u.SlotConfirmed? && !u.SlotFinalized?
    ensures Handle(s, u).1 == Failed <==>
      || u.Unexpected? || (u.Transaction? && u.body.None?)
      || ((u.Transaction? || u.BlockMeta?) && Completes(s, u) && !MetaFor(s, u).value.rewardsValid)
  {
  }

  ghost function MetaFor(s: Source, u: Update): Option<Meta>
    requires u.Transaction? || u.BlockMeta?
  {
    if u.BlockMeta? then Some(u.meta) else Info(s, u.slot).meta
  }

  /** The message makes the metadata's count come true for a slot above the first one whose block has not been built. */
  ghost predicate Completes(s: Source, u: Update)
    requires u.Transaction? || u.BlockMeta?
  {
    && (s.first.None? || s.first.value < u.slot) && !Info(s, u.slot).sealed
    && MetaFor(s, u).Some? && MetaFor(s, u).value.count == |Info(s, u.slot).txs| + if u.Transaction? then 1 else 0
  }
}
