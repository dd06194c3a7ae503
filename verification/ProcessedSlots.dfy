/**
 The published processed slot (src/storage/slots.rs): in every schedule it is 0
 or a slot that every reader has reported as processed or confirmed.
 */
module ProcessedSlots {
  import opened Common
  import opened Publication

  /** The reader has reported a message like `m`. */
  ghost predicate Said(a: Reader, log: seq<Message>, m: Message) {
    exists p: nat :: p < |log| && log[p] == m && Reported(a, p)
  }

  ghost predicate SaidByAll(readers: seq<Reader>, log: seq<Message>, m: Message) {
    forall i :: 0 <= i < |readers| ==> Said(readers[i], log, m)
  }

  /** Only reports that were really made are in the table. */
  ghost predicate NewHonest(w: Waiting, readers: seq<Reader>, log: seq<Message>) {
    forall slot: Slot, r: nat {:trigger r in Reports(w, slot)} ::
      r in Reports(w, slot) ==> r < |readers| && Said(readers[r], log, New(slot))
  }

  /** A reader that is about to raise the processed slot does so for all. */
  ghost predicate RaisesForAll(readers: seq<Reader>, log: seq<Message>) {
    forall r :: 0 <= r < |readers| && readers[r].phase.Raising? && readers[r].pos < |log| ==>
      SaidByAll(readers, log, log[readers[r].pos])
  }

  ghost predicate ProcessedShown(slot: Slot, readers: seq<Reader>, log: seq<Message>) {
    slot == 0 || SaidByAll(readers, log, New(slot)) || SaidByAll(readers, log, Confirmed(slot))
  }

  ghost predicate ProcessedInv(s: State, log: seq<Message>) {
    NewHonest(s.processed, s.readers, log) && RaisesForAll(s.readers, log) && ProcessedShown(s.shownProcessed, s.readers, log)
  }

  ghost predicate Onward(before: seq<Reader>, after: seq<Reader>) {
    |before| == |after| && forall i, p :: 0 <= i < |before| && Reported(before[i], p) ==> Reported(after[i], p)
  }

  lemma SaidStays(before: seq<Reader>, after: seq<Reader>, log: seq<Message>)
    requires Onward(before, after)
    ensures forall i, m :: 0 <= i < |before| && Said(before[i], log, m) ==> Said(after[i], log, m)
    ensures forall m :: SaidByAll(before, log, m) ==> SaidByAll(after, log, m)
  {
    hide Reported;
    forall i, m | 0 <= i < |before| && Said(before[i], log, m) ensures Said(after[i], log, m) {
      var p: nat :| p < |log| && log[p] == m && Reported(before[i], p);
      assert Reported(after[i], p);
    }
  }

  lemma HonestStays(w: Waiting, before: seq<Reader>, after: seq<Reader>, log: seq<Message>)
    requires NewHonest(w, before, log) && Onward(before, after)
    ensures NewHonest(w, after, log)
  {
    hide Said, Onward;
    SaidStays(before, after, log);
    assert |before| == |after| by { SameCount(before, after); }
  }

  lemma SameCount(before: seq<Reader>, after: seq<Reader>)
    requires Onward(before, after)
    ensures |before| == |after|
  {
  }

  lemma HonestReports(w: Waiting, slot: Slot, r: nat, readers: seq<Reader>, log: seq<Message>)
    requires NewHonest(w, readers, log) && r < |readers| && Said(readers[r], log, New(slot))
    ensures NewHonest(Report(w, slot, r, |readers|), readers, log)
  {
    hide Said;
    var u := Report(w, slot, r, |readers|);
    forall c: Slot, i: nat {:trigger i in Reports(u, c)} | i in Reports(u, c)
      ensures i < |readers| && Said(readers[i], log, New(c))
    {
      assert i in Reports(w, c) || (c == slot && i == r);
    }
  }

  lemma HonestPrune(w: Waiting, slot: Slot, readers: seq<Reader>, log: seq<Message>)
    requires NewHonest(w, readers, log)
    ensures NewHonest(Pruned(w, slot), readers, log)
  {
    hide Said, Pruned, Reports;
    var u := Pruned(w, slot);
    forall c: Slot, i: nat {:trigger i in Reports(u, c)} | i in Reports(u, c)
      ensures i < |readers| && Said(readers[i], log, New(c))
    {
      PrunedReports(w, slot, c);
      assert i in Reports(w, c);
    }
  }

  /** A completed entry has been reported by all. */
  lemma CompleteIsAll(w: Waiting, slot: Slot, r: nat, before: seq<Reader>, after: seq<Reader>, log: seq<Message>)
    requires NewHonest(w, before, log) && Onward(before, after) && r < |after| && Said(after[r], log, New(slot))
    requires Complete(w, slot, r, |before|)
    ensures SaidByAll(after, log, New(slot))
  {
    hide Said, Onward;
    SameCount(before, after);
    SaidStays(before, after, log);
    Crowd(Reports(w, slot) + {r}, |before|);
    forall i | 0 <= i < |after| ensures Said(after[i], log, New(slot)) {
      assert i in Reports(w, slot) + {r};
    }
  }

  lemma OneMoved(s: State, log: seq<Message>, r: nat)
    requires Inv(s, log)
    ensures var t := Step(s, log, r);
            Onward(s.readers, t.readers) && forall i :: 0 <= i < |s.readers| && i != r ==> t.readers[i] == s.readers[i]
  {
    hide Report, Complete, Pruned, Honest, Shown, Finished, Leads, Reported, Step;
    Advances(s, log, r);
  }

  /** Everything a step of reader `r` can change of the processed slot. */
  lemma StepKeepsProcessed(s: State, log: seq<Message>, r: nat)
    requires Inv(s, log) && ProcessedInv(s, log)
    ensures ProcessedInv(Step(s, log, r), log)
  {
    hide Inv, NewHonest, RaisesForAll, ProcessedShown, Onward, Announce, Resume, SaidByAll;
    var t := Step(s, log, r);
    OneMoved(s, log, r);
    HonestStays(s.processed, s.readers, t.readers, log);
    if r < |s.readers| && s.readers[r].pos < |log| {
      if s.readers[r].phase == Ready {
        AnnounceKeepsProcessed(s, log, r);
      } else {
        ResumeKeepsProcessed(s, log, r);
      }
    }
  }

  lemma AnnounceKeepsProcessed(s: State, log: seq<Message>, r: nat)
    requires Inv(s, log) && ProcessedInv(s, log) && r < |s.readers| && s.readers[r].pos < |log| && s.readers[r].phase == Ready
    requires var t := Step(s, log, r);
             && Onward(s.readers, t.readers) && NewHonest(s.processed, t.readers, log)
             && forall i :: 0 <= i < |s.readers| && i != r ==> t.readers[i] == s.readers[i]
    ensures ProcessedInv(Step(s, log, r), log)
  {
    hide Inv, NewHonest, Onward, Report, Complete, SaidByAll;
    var t, m := Step(s, log, r), log[s.readers[r].pos];
    SaidStays(s.readers, t.readers, log);
    SameCount(s.readers, t.readers);
    assert Said(t.readers[r], log, m) by {
      assert Reported(t.readers[r], s.readers[r].pos);
    }
    match m {
      case New(c) =>
        HonestReports(s.processed, c, r, t.readers, log);
        if Complete(s.processed, c, r, |s.readers|) {
          CompleteIsAll(s.processed, c, r, s.readers, t.readers, log);
        }
      case Confirmed(c) =>
        if Complete(s.confirmed, c, r, |s.readers|) {
          assert t.readers[r].phase == Raising(true);
          RaisingIsReported(s, log, r);
        }
      case Finalized(_) =>
    }
  }

  /** A reader that has completed a confirmation raises for all. */
  lemma RaisingIsReported(s: State, log: seq<Message>, r: nat)
    requires Inv(s, log) && r < |s.readers| && s.readers[r].pos < |log| && s.readers[r].phase == Ready && log[s.readers[r].pos].Confirmed?
    requires Complete(s.confirmed, log[s.readers[r].pos].slot, r, |s.readers|)
    ensures SaidByAll(Step(s, log, r).readers, log, log[s.readers[r].pos])
  {
    hide Report, Complete, Pruned, Honest, Shown, Finished, Leads, Reported, HasReported;
    var t, p := Step(s, log, r), s.readers[r].pos;
    var c := log[p].slot;
    Advances(s, log, r);
    CompletedByAll(s.confirmed, c, r, s.readers, log, true);
    forall i | 0 <= i < |t.readers| ensures Said(t.readers[i], log, log[p]) {
      if i == r {
        assert Reported(t.readers[r], p) by { JustReported(s, log, r); }
      } else {
        assert HasReported(s.readers[i], log, c, true);
        SaidIfReported(s.readers[i], log, c);
        assert t.readers[i] == s.readers[i];
      }
    }
  }

  lemma SaidIfReported(a: Reader, log: seq<Message>, c: Slot)
    requires HasReported(a, log, c, true)
    ensures Said(a, log, Confirmed(c))
  {
  }

  /** A reader raises the processed slot at a message that announces or confirms it. */
  lemma RaisesWhat(s: State, log: seq<Message>, r: nat)
    requires Inv(s, log) && r < |s.readers| && s.readers[r].pos < |log|
    ensures s.readers[r].phase.Raising? ==> log[s.readers[r].pos].New? || log[s.readers[r].pos].Confirmed?
  {
    hide Honest, Shown, Finished, Leads, AllReported;
    assert PhaseFits(s.readers[r], log);
  }

  lemma ResumeKeepsProcessed(s: State, log: seq<Message>, r: nat)
    requires Inv(s, log) && ProcessedInv(s, log) && r < |s.readers| && s.readers[r].pos < |log| && s.readers[r].phase != Ready
    requires var t := Step(s, log, r);
             && Onward(s.readers, t.readers) && NewHonest(s.processed, t.readers, log)
             && forall i :: 0 <= i < |s.readers| && i != r ==> t.readers[i] == s.readers[i]
    ensures ProcessedInv(Step(s, log, r), log)
  {
    hide Inv, NewHonest, Onward, Pruned, SaidByAll, PhaseFits;
    var t, a := Step(s, log, r), s.readers[r];
    var m := log[a.pos];
    SaidStays(s.readers, t.readers, log);
    SameCount(s.readers, t.readers);
    RaisesWhat(s, log, r);
    HonestPrune(s.processed, m.slot, t.readers, log);
    if a.phase.Raising? {
      assert SaidByAll(t.readers, log, m);
    }
  }

  /** In every schedule the published processed slot is 0 or has been reported by all. */
  lemma {:induction false} ProcessedByAll(n: nat, seed: Slot, log: seq<Message>, schedule: seq<nat>)
    requires Rising(log)
    ensures var s := Run(Initial(n, seed), log, schedule);
      && ProcessedInv(s, log) && |s.readers| == n
      && (s.shownProcessed == 0 || SaidByAll(s.readers, log, New(s.shownProcessed)) || SaidByAll(s.readers, log, Confirmed(s.shownProcessed)))
  {
    hide Inv, Rising, Step, NewHonest, RaisesForAll, SaidByAll;
    RunKeeps(n, seed, log, schedule);
    if schedule == [] {
      InitialProcessed(n, seed, log);
    } else {
      var k := |schedule| - 1;
      ProcessedByAll(n, seed, log, schedule[..k]);
      RunKeeps(n, seed, log, schedule[..k]);
      StepKeepsProcessed(Run(Initial(n, seed), log, schedule[..k]), log, schedule[k]);
    }
  }

  lemma InitialProcessed(n: nat, seed: Slot, log: seq<Message>)
    ensures ProcessedInv(Initial(n, seed), log)
  {
  }
}
