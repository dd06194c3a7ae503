/**
 Publication of slots by several readers (src/storage/slots.rs).

 Every reader consumes the writer's log at its own speed and reports each
 message in a shared table. The reader whose report completes the set of all
 readers publishes the slot, in separate atomic steps that other readers'
 steps may interleave with. A completed finalization prunes the tables.
 */
module Publication {
  import opened Common

  datatype Message = New(slot: Slot) | Confirmed(slot: Slot) | Finalized(slot: Slot)

  /** Where a reader stands inside the message at its position. */
  datatype Phase =
    | Ready
    | Raising(confirmed: bool)
    | Confirming
    | Pruning(stage: nat)

  datatype Reader = Reader(pos: nat, phase: Phase)

  /** Which readers have reported a slot so far. */
  type Waiting = map<Slot, set<nat>>

  datatype State = State(readers: seq<Reader>, processed: Waiting, confirmed: Waiting, finalized: Waiting,
                         shownProcessed: Slot, shownConfirmed: Slot,
                         seed: Slot)           // the confirmed slot the writer published at startup

  /** The ring's front slot, 0 for an empty ring, is published before any reader reports. */
  function Initial(n: nat, seed: Slot): State {
    State(seq(n, i => Reader(0, Ready)), map[], map[], map[], 0, seed, seed)
  }

  function Reports(w: Waiting, slot: Slot): set<nat> {
    if slot in w then w[slot] else {}
  }

  function Complete(w: Waiting, slot: Slot, r: nat, n: nat): bool {
    |Reports(w, slot) + {r}| == n
  }

  /** `set`: add one report; a completed entry is removed. */
  function Report(w: Waiting, slot: Slot, r: nat, n: nat): Waiting {
    if Complete(w, slot, r, n) then w - {slot} else w[slot := Reports(w, slot) + {r}]
  }

  function Pruned(w: Waiting, slot: Slot): Waiting {
    map k | k in w && k > slot :: w[k]
  }

  function Next(a: Reader): Reader {
    Reader(a.pos + 1, Ready)
  }

  function Move(s: State, r: nat, a: Reader): State
    requires r < |s.readers|
  {
    s.(readers := s.readers[r := a])
  }

  function Max(a: Slot, b: Slot): Slot {
    if a < b then b else a
  }

  /** The reader reports the message at its position. */
  function Announce(s: State, log: seq<Message>, r: nat): State
    requires r < |s.readers| && s.readers[r].pos < |log|
  {
    var a, n := s.readers[r], |s.readers|;
    match log[a.pos]
    case New(c) =>
      Move(s, r, if Complete(s.processed, c, r, n) then a.(phase := Raising(false)) else Next(a))
      .(processed := Report(s.processed, c, r, n))
    case Confirmed(c) =>
      Move(s, r, if Complete(s.confirmed, c, r, n) then a.(phase := Raising(true)) else Next(a))
      .(confirmed := Report(s.confirmed, c, r, n))
    case Finalized(c) =>
      Move(s, r, if Complete(s.finalized, c, r, n) then a.(phase := Pruning(0)) else Next(a))
      .(finalized := Report(s.finalized, c, r, n))
  }

  /** What a reader that completed a message does next, one atomic step at a time. */
  function Resume(s: State, log: seq<Message>, r: nat): State
    requires r < |s.readers| && s.readers[r].pos < |log|
  {
    var a, slot := s.readers[r], log[s.readers[r].pos].slot;
    match a.phase
    case Ready => s
    case Raising(confirmed) =>
      Move(s, r, if confirmed then a.(phase := Confirming) else Next(a)).(shownProcessed := Max(s.shownProcessed, slot))
    case Confirming => Move(s, r, Next(a)).(shownConfirmed := slot)
    case Pruning(stage) =>
      if stage == 0 then Move(s, r, a.(phase := Pruning(1))).(processed := Pruned(s.processed, slot))
      else if stage == 1 then Move(s, r, a.(phase := Pruning(2))).(confirmed := Pruned(s.confirmed, slot))
      else Move(s, r, Next(a)).(finalized := Pruned(s.finalized, slot))
  }

  /** One atomic step of reader `r`; at the end of the log it waits. */
  function Step(s: State, log: seq<Message>, r: nat): State {
    if r >= |s.readers| || s.readers[r].pos >= |log| then s
    else if s.readers[r].phase == Ready then Announce(s, log, r)
    else Resume(s, log, r)
  }

  /** A schedule names the reader of each step. */
  function Run(s: State, log: seq<Message>, schedule: seq<nat>): State {
    if schedule == [] then s else Step(Run(s, log, schedule[..|schedule| - 1]), log, schedule[|schedule| - 1])
  }

  // ----- what every schedule keeps -----

  predicate Reported(a: Reader, p: nat) {
    a.pos > p || (a.pos == p && a.phase != Ready)
  }

  ghost predicate AllReported(s: State, p: nat) {
    forall r :: 0 <= r < |s.readers| ==> Reported(s.readers[r], p)
  }

  /** The writer confirms slots in strictly increasing order. */
  ghost predicate Rising(log: seq<Message>) {
    forall i, j :: 0 <= i < j < |log| && log[i].Confirmed? && log[j].Confirmed? ==> log[i].slot < log[j].slot
  }

  /** No confirmation lies below the slot published at startup. */
  ghost predicate AtLeast(log: seq<Message>, seed: Slot) {
    forall i :: 0 <= i < |log| && log[i].Confirmed? ==> log[i].slot >= seed
  }

  /** Only reports that were really made are on the table. */
  ghost predicate Honest(w: Waiting, readers: seq<Reader>, log: seq<Message>, confirmed: bool) {
    forall slot: Slot, r: nat {:trigger r in Reports(w, slot)} ::
      r in Reports(w, slot) ==> r < |readers| && HasReported(readers[r], log, slot, confirmed)
  }

  ghost predicate HasReported(a: Reader, log: seq<Message>, slot: Slot, confirmed: bool) {
    exists p: nat :: p < |log| && log[p] == (if confirmed then Confirmed(slot) else Finalized(slot)) && Reported(a, p)
  }

  ghost predicate PhaseFits(a: Reader, log: seq<Message>) {
    a.phase != Ready ==>
      && a.pos < |log|
      && match a.phase
         case Ready => true
         case Raising(confirmed) => if confirmed then log[a.pos].Confirmed? else log[a.pos].New?
         case Confirming => log[a.pos].Confirmed?
         case Pruning(stage) => log[a.pos].Finalized?
  }

  ghost predicate Storing(a: Reader) {
    a.phase == Raising(true) || a.phase == Confirming
  }

  /** Every reader has reported a finalization of the slot. */
  ghost predicate Finished(readers: seq<Reader>, log: seq<Message>, slot: Slot) {
    forall i :: 0 <= i < |readers| ==> HasReported(readers[i], log, slot, false)
  }

  ghost predicate Shown(s: State, log: seq<Message>) {
    s.shownConfirmed == s.seed ||
    exists p: nat :: p < |log| && log[p] == Confirmed(s.shownConfirmed) && AllReported(s, p)
  }

  ghost predicate Inv(s: State, log: seq<Message>) {
    && Honest(s.confirmed, s.readers, log, true)
    && Honest(s.finalized, s.readers, log, false)
    && (forall r :: 0 <= r < |s.readers| ==> PhaseFits(s.readers[r], log))
    && (forall r :: 0 <= r < |s.readers| && Storing(s.readers[r]) ==> AllReported(s, s.readers[r].pos))
    && (forall r :: 0 <= r < |s.readers| && s.readers[r].phase.Pruning? && s.readers[r].pos < |log| ==>
          Finished(s.readers, log, log[s.readers[r].pos].slot))
    && Leads(s, log)
    && (s.shownConfirmed <= s.shownProcessed || s.shownConfirmed == s.seed)
    && Shown(s, log)
  }

  // ----- counting readers -----

  lemma {:induction false} Crowd(all: set<nat>, n: nat)
    requires forall r :: r in all ==> r < n
    ensures |all| <= n && (|all| == n ==> forall r :: 0 <= r < n ==> r in all)
    decreases n
  {
    if n > 0 {
      Crowd(all - {n - 1}, n - 1);
      if n - 1 in all {
        assert |all| == |all - {n - 1}| + 1;
        if |all| == n {
          forall r | 0 <= r < n ensures r in all {
            assert r == n - 1 || r in all - {n - 1};
          }
        }
      } else {
        assert all - {n - 1} == all;
      }
    } else if r :| r in all {
    }
  }

  // ----- one step -----

  /** A step moves only its reader, and never takes a report back. */
  lemma Advances(s: State, log: seq<Message>, r: nat)
    requires forall i :: 0 <= i < |s.readers| ==> PhaseFits(s.readers[i], log)
    ensures var t := Step(s, log, r);
            && |t.readers| == |s.readers|
            && (forall i :: 0 <= i < |s.readers| && i != r ==> t.readers[i] == s.readers[i])
            && (forall i, p :: 0 <= i < |s.readers| && Reported(s.readers[i], p) ==> Reported(t.readers[i], p))
            && (forall i :: 0 <= i < |s.readers| ==> PhaseFits(t.readers[i], log))
  {
    hide PhaseFits, Report, Complete, Pruned;
    if r < |s.readers| {
      OwnAdvance(s, log, r);
    }
  }

  lemma OwnAdvance(s: State, log: seq<Message>, r: nat)
    requires r < |s.readers| && PhaseFits(s.readers[r], log)
    ensures var t := Step(s, log, r);
            && t.readers == s.readers[r := t.readers[r]] && PhaseFits(t.readers[r], log)
            && forall p :: Reported(s.readers[r], p) ==> Reported(t.readers[r], p)
  {
    hide Announce, Resume;
    if s.readers[r].pos < |log| {
      if s.readers[r].phase == Ready {
        AnnounceAdvances(s, log, r);
      } else {
        ResumeAdvances(s, log, r);
      }
    }
  }

  lemma AnnounceAdvances(s: State, log: seq<Message>, r: nat)
    requires r < |s.readers| && s.readers[r].pos < |log| && s.readers[r].phase == Ready
    ensures var t := Announce(s, log, r);
            && t.readers == s.readers[r := t.readers[r]] && PhaseFits(t.readers[r], log)
            && forall p :: Reported(s.readers[r], p) ==> Reported(t.readers[r], p)
  {
    hide Report, Complete;
  }

  lemma ResumeAdvances(s: State, log: seq<Message>, r: nat)
    requires r < |s.readers| && s.readers[r].pos < |log| && s.readers[r].phase != Ready && PhaseFits(s.readers[r], log)
    ensures var t := Resume(s, log, r);
            && t.readers == s.readers[r := t.readers[r]] && PhaseFits(t.readers[r], log)
            && forall p :: Reported(s.readers[r], p) ==> Reported(t.readers[r], p)
  {
    hide Pruned;
  }

  lemma AllReportedKept(s: State, t: State)
    requires |t.readers| == |s.readers|
    requires forall i, p :: 0 <= i < |s.readers| && Reported(s.readers[i], p) ==> Reported(t.readers[i], p)
    ensures forall p :: AllReported(s, p) ==> AllReported(t, p)
  {
    hide Reported;
  }

  lemma HonestKept(w: Waiting, before: seq<Reader>, after: seq<Reader>, log: seq<Message>, confirmed: bool)
    requires Honest(w, before, log, confirmed) && |before| == |after|
    requires forall i, p :: 0 <= i < |before| && Reported(before[i], p) ==> Reported(after[i], p)
    ensures Honest(w, after, log, confirmed)
  {
    hide Reported;
    forall slot: Slot, r: nat {:trigger r in Reports(w, slot)} | r in Reports(w, slot)
      ensures r < |after| && HasReported(after[r], log, slot, confirmed) {
      assert HasReported(before[r], log, slot, confirmed);
      var p: nat :| p < |log| && log[p] == (if confirmed then Confirmed(slot) else Finalized(slot)) && Reported(before[r], p);
      assert Reported(after[r], p);
    }
  }

  lemma HonestReport(w: Waiting, slot: Slot, r: nat, readers: seq<Reader>, log: seq<Message>, confirmed: bool)
    requires Honest(w, readers, log, confirmed) && r < |readers| && HasReported(readers[r], log, slot, confirmed)
    ensures Honest(Report(w, slot, r, |readers|), readers, log, confirmed)
  {
    hide HasReported;
    var u := Report(w, slot, r, |readers|);
    forall c: Slot, i: nat {:trigger i in Reports(u, c)} | i in Reports(u, c)
      ensures i < |readers| && HasReported(readers[i], log, c, confirmed)
    {
      assert i in Reports(w, c) || (c == slot && i == r);
    }
  }

  lemma HonestPruned(w: Waiting, slot: Slot, readers: seq<Reader>, log: seq<Message>, confirmed: bool)
    requires Honest(w, readers, log, confirmed)
    ensures Honest(Pruned(w, slot), readers, log, confirmed)
  {
    hide HasReported, Pruned, Reports;
    var u := Pruned(w, slot);
    forall c: Slot, i: nat {:trigger i in Reports(u, c)} | i in Reports(u, c)
      ensures i < |readers| && HasReported(readers[i], log, c, confirmed) {
      PrunedReports(w, slot, c);
      assert i in Reports(w, c);
    }
  }

  lemma PrunedReports(w: Waiting, slot: Slot, c: Slot)
    ensures Reports(Pruned(w, slot), c) == if c > slot then Reports(w, c) else {}
  {
  }

  /** A completed entry was reported by every other reader. */
  lemma CompletedByAll(w: Waiting, slot: Slot, r: nat, readers: seq<Reader>, log: seq<Message>, confirmed: bool)
    requires Honest(w, readers, log, confirmed) && r < |readers| && Complete(w, slot, r, |readers|)
    ensures forall i :: 0 <= i < |readers| && i != r ==> HasReported(readers[i], log, slot, confirmed)
  {
    hide HasReported;
    Crowd(Reports(w, slot) + {r}, |readers|);
    forall i | 0 <= i < |readers| && i != r ensures HasReported(readers[i], log, slot, confirmed) {
      assert i in Reports(w, slot) + {r};
    }
  }

  /** Confirmed slots are unique, so a report of the slot is a report of its position. */
  lemma ReportedAt(a: Reader, log: seq<Message>, p: nat)
    requires Rising(log) && p < |log| && log[p].Confirmed? && HasReported(a, log, log[p].slot, true)
    ensures Reported(a, p)
  {
    hide Reported;
    var q: nat :| q < |log| && log[q] == Confirmed(log[p].slot) && Reported(a, q);
    assert q == p;
  }

  lemma MapsStayHonest(s: State, log: seq<Message>, r: nat)
    requires Inv(s, log)
    ensures var t := Step(s, log, r);
            Honest(t.confirmed, t.readers, log, true) && Honest(t.finalized, t.readers, log, false)
  {
    hide Report, Complete, Pruned, Reported, Honest, Shown, HasReported;
    var t := Step(s, log, r);
    Advances(s, log, r);
    HonestKept(s.confirmed, s.readers, t.readers, log, true);
    HonestKept(s.finalized, s.readers, t.readers, log, false);
    if r < |s.readers| && s.readers[r].pos < |log| {
      var a := s.readers[r];
      var m := log[a.pos];
      if a.phase == Ready {
        JustReported(s, log, r);
        if m.Confirmed? {
          HonestReport(s.confirmed, m.slot, r, t.readers, log, true);
        } else if m.Finalized? {
          HonestReport(s.finalized, m.slot, r, t.readers, log, false);
        }
      } else {
        HonestPruned(s.confirmed, m.slot, t.readers, log, true);
        HonestPruned(s.finalized, m.slot, t.readers, log, false);
      }
    }
  }

  lemma JustReported(s: State, log: seq<Message>, r: nat)
    requires r < |s.readers| && s.readers[r].pos < |log| && s.readers[r].phase == Ready
    ensures var t, p := Step(s, log, r), s.readers[r].pos;
            && |t.readers| == |s.readers| && Reported(t.readers[r], p)
            && (log[p].Confirmed? ==> HasReported(t.readers[r], log, log[p].slot, true))
            && (log[p].Finalized? ==> HasReported(t.readers[r], log, log[p].slot, false))
  {
    hide Report, Complete;
    var t, p := Step(s, log, r), s.readers[r].pos;
    assert Reported(t.readers[r], p);
  }

  /** Whoever is about to store a confirmed slot knows that every reader has reported it. */
  lemma StorersStayBacked(s: State, log: seq<Message>, r: nat)
    requires Inv(s, log) && Rising(log)
    ensures var t := Step(s, log, r);
            forall i :: 0 <= i < |t.readers| && Storing(t.readers[i]) ==> AllReported(t, t.readers[i].pos)
  {
    hide Step, Reported, Honest, Shown, HasReported, AllReported, Rising, Leads, PhaseFits, Finished;
    var t := Step(s, log, r);
    Advances(s, log, r);
    AllReportedKept(s, t);
    if r < |s.readers| && Storing(t.readers[r]) {
      StartsStoring(s, log, r);
      if !Storing(s.readers[r]) {
        CompletionBacked(s, log, r);
      }
    }
  }

  /** A reader starts to store a slot only by completing its confirmation. */
  lemma StartsStoring(s: State, log: seq<Message>, r: nat)
    requires r < |s.readers| && |Step(s, log, r).readers| == |s.readers| && Storing(Step(s, log, r).readers[r])
    ensures Step(s, log, r).readers[r].pos == s.readers[r].pos
    ensures !Storing(s.readers[r]) ==>
              && s.readers[r].pos < |log| && s.readers[r].phase == Ready && log[s.readers[r].pos].Confirmed?
              && Complete(s.confirmed, log[s.readers[r].pos].slot, r, |s.readers|)
  {
    hide Report, Complete, Pruned;
  }

  lemma CompletionBacked(s: State, log: seq<Message>, r: nat)
    requires Inv(s, log) && Rising(log)
    requires r < |s.readers| && s.readers[r].pos < |log| && s.readers[r].phase == Ready && log[s.readers[r].pos].Confirmed?
    requires Complete(s.confirmed, log[s.readers[r].pos].slot, r, |s.readers|)
    ensures AllReported(Step(s, log, r), s.readers[r].pos)
  {
    hide Report, Complete, Pruned, Reported, Honest, Shown, HasReported, Rising;
    var t, p := Step(s, log, r), s.readers[r].pos;
    Advances(s, log, r);
    JustReported(s, log, r);
    CompletedByAll(s.confirmed, log[p].slot, r, s.readers, log, true);
    forall i | 0 <= i < |t.readers| ensures Reported(t.readers[i], p) {
      if i != r {
        ReportedAt(s.readers[i], log, p);
      }
    }
  }

  lemma ShownStays(s: State, log: seq<Message>, r: nat)
    requires Inv(s, log)
    ensures Shown(Step(s, log, r), log)
  {
    hide Report, Complete, Pruned, Reported, Honest, HasReported, AllReported, Leads, Finished;
    var t := Step(s, log, r);
    Advances(s, log, r);
    AllReportedKept(s, t);
    if r < |s.readers| && s.readers[r].pos < |log| && s.readers[r].phase == Confirming {
      var p := s.readers[r].pos;
      assert log[p] == Confirmed(t.shownConfirmed) && AllReported(t, p);
    } else {
      assert t.shownConfirmed == s.shownConfirmed;
    }
  }

  /** A store never lowers the published slot, unless it replaces the one from startup. */
  lemma ShownRises(s: State, log: seq<Message>, r: nat)
    requires Inv(s, log) && Rising(log) && (AtLeast(log, s.seed) || s.shownConfirmed != s.seed)
    ensures s.shownConfirmed <= Step(s, log, r).shownConfirmed
  {
    hide Report, Complete, Pruned, Honest, HasReported;
    if r < |s.readers| && s.readers[r].pos < |log| && s.readers[r].phase == Confirming && s.shownConfirmed != s.seed {
      var q: nat :| q < |log| && log[q] == Confirmed(s.shownConfirmed) && AllReported(s, q);
      assert Reported(s.readers[r], q);
    }
  }

  lemma StepKeeps(s: State, log: seq<Message>, r: nat)
    requires Inv(s, log) && Rising(log)
    ensures Inv(Step(s, log, r), log)
  {
    hide Report, Complete, Pruned, Reported, Honest, HasReported, AllReported, Shown, Rising, PhaseFits, Storing, Finished;
    MapsStayHonest(s, log, r);
    Advances(s, log, r);
    StorersStayBacked(s, log, r);
    ShownStays(s, log, r);
    ProcessedLeads(s, log, r);
    PrunersStayBacked(s, log, r);
  }

  lemma HasReportedKept(before: seq<Reader>, after: seq<Reader>, log: seq<Message>, slot: Slot)
    requires |before| == |after| && Finished(before, log, slot)
    requires forall i, p :: 0 <= i < |before| && Reported(before[i], p) ==> Reported(after[i], p)
    ensures Finished(after, log, slot)
  {
    hide Reported;
    forall i | 0 <= i < |after| ensures HasReported(after[i], log, slot, false) {
      assert HasReported(before[i], log, slot, false);
      var p: nat :| p < |log| && log[p] == Finalized(slot) && Reported(before[i], p);
      assert Reported(after[i], p);
    }
  }

  lemma PrunersStayBacked(s: State, log: seq<Message>, r: nat)
    requires Inv(s, log)
    ensures var t := Step(s, log, r);
            forall i :: 0 <= i < |t.readers| && t.readers[i].phase.Pruning? && t.readers[i].pos < |log| ==>
              Finished(t.readers, log, log[t.readers[i].pos].slot)
  {
    hide Step, Reported, Honest, Shown, HasReported, AllReported, Finished, Leads, PhaseFits;
    var t := Step(s, log, r);
    Advances(s, log, r);
    forall i | 0 <= i < |t.readers| && t.readers[i].phase.Pruning? && t.readers[i].pos < |log|
      ensures Finished(t.readers, log, log[t.readers[i].pos].slot)
    {
      if i == r {
        StartsPruning(s, log, r);
      }
      if s.readers[i].phase.Pruning? {
        HasReportedKept(s.readers, t.readers, log, log[t.readers[i].pos].slot);
      } else {
        FinalizationBacked(s, log, r);
      }
    }
  }

  /** A reader starts to prune only by completing its finalization. */
  lemma StartsPruning(s: State, log: seq<Message>, r: nat)
    requires r < |s.readers| && |Step(s, log, r).readers| == |s.readers| && Step(s, log, r).readers[r].phase.Pruning?
    ensures Step(s, log, r).readers[r].pos == s.readers[r].pos
    ensures !s.readers[r].phase.Pruning? && s.readers[r].pos < |log| ==>
              && s.readers[r].phase == Ready && log[s.readers[r].pos].Finalized?
              && Complete(s.finalized, log[s.readers[r].pos].slot, r, |s.readers|)
  {
    hide Report, Complete, Pruned;
  }

  lemma FinalizationBacked(s: State, log: seq<Message>, r: nat)
    requires Inv(s, log) && r < |s.readers| && s.readers[r].pos < |log| && s.readers[r].phase == Ready
    requires log[s.readers[r].pos].Finalized? && Complete(s.finalized, log[s.readers[r].pos].slot, r, |s.readers|)
    ensures Finished(Step(s, log, r).readers, log, log[s.readers[r].pos].slot)
  {
    hide Report, Complete, Pruned, Reported, Honest, Shown, HasReported, AllReported;
    var t, slot := Step(s, log, r), log[s.readers[r].pos].slot;
    Advances(s, log, r);
    JustReported(s, log, r);
    CompletedByAll(s.finalized, slot, r, s.readers, log, false);
  }

  /** Whoever is about to store a confirmed slot has raised the processed one to it. */
  ghost predicate Leads(s: State, log: seq<Message>) {
    forall i :: 0 <= i < |s.readers| && s.readers[i].phase == Confirming && s.readers[i].pos < |log| ==>
      s.shownProcessed >= log[s.readers[i].pos].slot
  }

  lemma ProcessedLeads(s: State, log: seq<Message>, r: nat)
    requires Leads(s, log) && (s.shownConfirmed <= s.shownProcessed || s.shownConfirmed == s.seed)
    ensures var t := Step(s, log, r);
            && Leads(t, log) && t.seed == s.seed
            && (t.shownConfirmed <= t.shownProcessed || t.shownConfirmed == t.seed)
  {
    hide Announce, Resume;
    if r < |s.readers| && s.readers[r].pos < |log| {
      if s.readers[r].phase == Ready {
        AnnounceLeads(s, log, r);
      } else {
        ResumeLeads(s, log, r);
      }
    }
  }

  lemma AnnounceLeads(s: State, log: seq<Message>, r: nat)
    requires r < |s.readers| && s.readers[r].pos < |log| && Leads(s, log)
    ensures var t := Announce(s, log, r);
            && Leads(t, log) && t.seed == s.seed
            && t.shownConfirmed == s.shownConfirmed && t.shownProcessed == s.shownProcessed
  {
    hide Report, Complete;
  }

  lemma ResumeLeads(s: State, log: seq<Message>, r: nat)
    requires r < |s.readers| && s.readers[r].pos < |log| && Leads(s, log)
    requires s.shownConfirmed <= s.shownProcessed || s.shownConfirmed == s.seed
    ensures var t := Resume(s, log, r);
            && Leads(t, log) && t.seed == s.seed
            && (t.shownConfirmed <= t.shownProcessed || t.shownConfirmed == t.seed)
  {
    hide Pruned;
  }

  // ----- whole runs -----

  lemma {:induction false} RunKeeps(n: nat, seed: Slot, log: seq<Message>, schedule: seq<nat>)
    requires Rising(log)
    ensures Inv(Run(Initial(n, seed), log, schedule), log)
    ensures |Run(Initial(n, seed), log, schedule).readers| == n && Run(Initial(n, seed), log, schedule).seed == seed
  {
    hide Inv, Rising, Step;
    if schedule == [] {
      InitialInv(n, seed, log);
    } else {
      var k := |schedule| - 1;
      RunKeeps(n, seed, log, schedule[..k]);
      StepKeeps(Run(Initial(n, seed), log, schedule[..k]), log, schedule[k]);
      SameReaders(Run(Initial(n, seed), log, schedule[..k]), log, schedule[k]);
    }
  }

  lemma InitialInv(n: nat, seed: Slot, log: seq<Message>)
    ensures Inv(Initial(n, seed), log)
  {
  }

  lemma SameReaders(s: State, log: seq<Message>, r: nat)
    ensures |Step(s, log, r).readers| == |s.readers| && Step(s, log, r).seed == s.seed
  {
    hide Report, Complete, Pruned;
  }

  /**
   In every schedule the published confirmed slot is the one from startup, or
   every reader has reported it; and the processed slot is behind only while the
   one from startup is shown.
   */
  lemma PublishedByAll(n: nat, seed: Slot, log: seq<Message>, schedule: seq<nat>)
    requires Rising(log)
    ensures var s := Run(Initial(n, seed), log, schedule);
            && |s.readers| == n && (s.shownConfirmed <= s.shownProcessed || s.shownConfirmed == seed)
            && (s.shownConfirmed == seed ||
                exists p: nat :: p < |log| && log[p] == Confirmed(s.shownConfirmed) && AllReported(s, p))
  {
    RunKeeps(n, seed, log, schedule);
  }

  /** With no confirmation below the startup slot, the published slot never decreases. */
  lemma {:induction false} NeverDecreases(n: nat, seed: Slot, log: seq<Message>, schedule: seq<nat>, k: nat)
    requires Rising(log) && AtLeast(log, seed) && k <= |schedule|
    ensures Run(Initial(n, seed), log, schedule[..k]).shownConfirmed <= Run(Initial(n, seed), log, schedule).shownConfirmed
    decreases |schedule| - k
  {
    hide Step, Inv, Rising, AtLeast;
    if k == |schedule| {
      assert schedule[..k] == schedule;
    } else {
      RunKeeps(n, seed, log, schedule[..k]);
      ShownRises(Run(Initial(n, seed), log, schedule[..k]), log, schedule[k]);
      assert schedule[..k + 1][..k] == schedule[..k];
      NeverDecreases(n, seed, log, schedule, k + 1);
    }
  }

  // ----- a schedule in which all readers stay together -----

  function FirstReaders(k: nat): set<nat> {
    if k == 0 then {} else FirstReaders(k - 1) + {k - 1}
  }

  lemma {:induction false} FirstReadersCount(k: nat)
    ensures |FirstReaders(k)| == k
    ensures forall i: nat :: i in FirstReaders(k) <==> i < k
  {
    if k > 0 {
      FirstReadersCount(k - 1);
    }
  }

  /** The first `k` readers have reported the slot, and no other report is on the table. */
  ghost predicate Table(w: Waiting, slot: Slot, k: nat) {
    forall c: Slot {:trigger Reports(w, c)} :: Reports(w, c) == if c == slot then FirstReaders(k) else {}
  }

  lemma ReportInTurn(w: Waiting, slot: Slot, k: nat, n: nat)
    requires Table(w, slot, k) && k < n
    ensures Complete(w, slot, k, n) <==> k + 1 == n
    ensures Table(Report(w, slot, k, n), slot, if k + 1 == n then 0 else k + 1)
  {
    FirstReadersCount(k + 1);
    assert FirstReaders(k) + {k} == FirstReaders(k + 1);
    assert FirstReaders(0) == {};
    var u := Report(w, slot, k, n);
    forall c: Slot {:trigger Reports(u, c)}
      ensures Reports(u, c) == if c == slot then FirstReaders(if k + 1 == n then 0 else k + 1) else {}
    {
      assert Reports(w, c) == if c == slot then FirstReaders(k) else {};
    }
  }

  lemma EmptyTable(w: Waiting, a: Slot, b: Slot)
    requires Table(w, a, 0)
    ensures Table(w, b, 0)
  {
    assert FirstReaders(0) == {};
  }

  lemma PrunedTable(w: Waiting, slot: Slot, upTo: Slot)
    requires Table(w, slot, 0)
    ensures Table(Pruned(w, upTo), slot, 0)
  {
    assert FirstReaders(0) == {};
    var u := Pruned(w, upTo);
    forall c: Slot {:trigger Reports(u, c)} ensures Reports(u, c) == {} {
      PrunedReports(w, upTo, c);
      assert Reports(w, c) == {};
    }
  }

  /** Readers below `k` have reported message `j`, the others not, and nothing else is under way. */
  ghost predicate Together(s: State, n: nat, log: seq<Message>, j: nat, k: nat)
    requires j < |log|
  {
    var slot := log[j].slot;
    && |s.readers| == n && k <= n
    && (forall i :: 0 <= i < n ==> s.readers[i] == Reader(if i < k then j + 1 else j, Ready))
    && Table(s.processed, slot, if log[j].New? then k else 0)
    && Table(s.confirmed, slot, if log[j].Confirmed? then k else 0)
    && Table(s.finalized, slot, if log[j].Finalized? then k else 0)
  }

  /** All readers have passed every message before `j`, and the tables are empty. */
  ghost predicate Level(s: State, n: nat, j: nat) {
    && |s.readers| == n
    && (forall i :: 0 <= i < n ==> s.readers[i] == Reader(j, Ready))
    && Table(s.processed, 0, 0) && Table(s.confirmed, 0, 0) && Table(s.finalized, 0, 0)
  }

  lemma LevelIsTogether(s: State, n: nat, log: seq<Message>, j: nat)
    requires Level(s, n, j) && j < |log|
    ensures Together(s, n, log, j, 0)
  {
    hide Table;
    EmptyTable(s.processed, 0, log[j].slot);
    EmptyTable(s.confirmed, 0, log[j].slot);
    EmptyTable(s.finalized, 0, log[j].slot);
  }

  lemma InTurn(s: State, n: nat, log: seq<Message>, j: nat, k: nat)
    requires j < |log| && k + 1 < n && Together(s, n, log, j, k)
    ensures Together(Step(s, log, k), n, log, j, k + 1) && Step(s, log, k).shownConfirmed == s.shownConfirmed
  {
    hide Table, Report, Complete;
    var slot := log[j].slot;
    match log[j] {
      case New(_) => ReportInTurn(s.processed, slot, k, n);
      case Confirmed(_) => ReportInTurn(s.confirmed, slot, k, n);
      case Finalized(_) => ReportInTurn(s.finalized, slot, k, n);
    }
  }

  /** What the last reader does once it has completed message `j`. */
  function Settled(s: State, log: seq<Message>, r: nat, steps: nat): State {
    if steps == 0 then s else Step(Settled(s, log, r, steps - 1), log, r)
  }

  /** How many atomic steps the completing report of a message takes. */
  function StepsOf(m: Message): nat {
    match m
    case New(_) => 2
    case Confirmed(_) => 3
    case Finalized(_) => 4
  }

  lemma LastInTurn(s: State, n: nat, log: seq<Message>, j: nat)
    requires j < |log| && n > 0 && Together(s, n, log, j, n - 1)
    ensures var t := Settled(s, log, n - 1, StepsOf(log[j]));
            Level(t, n, j + 1) && t.shownConfirmed == if log[j].Confirmed? then log[j].slot else s.shownConfirmed
  {
    match log[j] {
      case New(_) => LastNew(s, n, log, j);
      case Confirmed(_) => LastConfirmed(s, n, log, j);
      case Finalized(_) => LastFinalized(s, n, log, j);
    }
  }

  lemma LastNew(s: State, n: nat, log: seq<Message>, j: nat)
    requires j < |log| && n > 0 && Together(s, n, log, j, n - 1) && log[j].New?
    ensures var t := Settled(s, log, n - 1, 2); Level(t, n, j + 1) && t.shownConfirmed == s.shownConfirmed
  {
    hide Table, Report, Complete;
    var slot := log[j].slot;
    ReportInTurn(s.processed, slot, n - 1, n);
    var t1 := Step(s, log, n - 1);
    assert t1.readers == s.readers[n - 1 := Reader(j, Raising(false))] && Settled(s, log, n - 1, 1) == t1 by {
      assert Settled(s, log, n - 1, 0) == s;
    }
    var t2 := Step(t1, log, n - 1);
    assert Settled(s, log, n - 1, 2) == t2;
    EmptyTable(t2.processed, slot, 0);
    EmptyTable(t2.confirmed, slot, 0);
    EmptyTable(t2.finalized, slot, 0);
  }

  lemma LastConfirmed(s: State, n: nat, log: seq<Message>, j: nat)
    requires j < |log| && n > 0 && Together(s, n, log, j, n - 1) && log[j].Confirmed?
    ensures var t := Settled(s, log, n - 1, 3); Level(t, n, j + 1) && t.shownConfirmed == log[j].slot
  {
    hide Table, Report, Complete;
    var slot := log[j].slot;
    ReportInTurn(s.confirmed, slot, n - 1, n);
    var t1 := Step(s, log, n - 1);
    assert t1.readers == s.readers[n - 1 := Reader(j, Raising(true))] && Settled(s, log, n - 1, 1) == t1 by {
      assert Settled(s, log, n - 1, 0) == s;
    }
    var t2 := Step(t1, log, n - 1);
    assert t2.readers == s.readers[n - 1 := Reader(j, Confirming)] && Settled(s, log, n - 1, 2) == t2;
    var t3 := Step(t2, log, n - 1);
    assert Settled(s, log, n - 1, 3) == t3;
    EmptyTable(t3.processed, slot, 0);
    EmptyTable(t3.confirmed, slot, 0);
    EmptyTable(t3.finalized, slot, 0);
  }

  lemma LastFinalized(s: State, n: nat, log: seq<Message>, j: nat)
    requires j < |log| && n > 0 && Together(s, n, log, j, n - 1) && log[j].Finalized?
    ensures var t := Settled(s, log, n - 1, 4); Level(t, n, j + 1) && t.shownConfirmed == s.shownConfirmed
  {
    hide Table, Report, Complete, Pruned;
    var slot := log[j].slot;
    ReportInTurn(s.finalized, slot, n - 1, n);
    var t1 := Step(s, log, n - 1);
    assert t1.readers == s.readers[n - 1 := Reader(j, Pruning(0))] && Settled(s, log, n - 1, 1) == t1 by {
      assert Settled(s, log, n - 1, 0) == s;
    }
    PrunedTable(t1.processed, slot, slot);
    PrunedTable(t1.confirmed, slot, slot);
    PrunedTable(t1.finalized, slot, slot);
    var t2 := Step(t1, log, n - 1);
    assert t2.readers == s.readers[n - 1 := Reader(j, Pruning(1))] && Settled(s, log, n - 1, 2) == t2;
    var t3 := Step(t2, log, n - 1);
    assert t3.readers == s.readers[n - 1 := Reader(j, Pruning(2))] && Settled(s, log, n - 1, 3) == t3;
    var t4 := Step(t3, log, n - 1);
    assert Settled(s, log, n - 1, 4) == t4;
    EmptyTable(t4.processed, slot, 0);
    EmptyTable(t4.confirmed, slot, 0);
    EmptyTable(t4.finalized, slot, 0);
  }

  lemma {:induction false} SettleRun(a: State, log: seq<Message>, before: seq<nat>, r: nat, steps: nat) returns (schedule: seq<nat>)
    ensures before <= schedule && Run(a, log, schedule) == Settled(Run(a, log, before), log, r, steps)
  {
    hide Step;
    if steps == 0 {
      schedule := before;
    } else {
      var most := SettleRun(a, log, before, r, steps - 1);
      schedule := most + [r];
      assert schedule[..|most|] == most;
    }
  }

  /** Readers below `k` take their turn at message `j`. */
  lemma {:induction false} TurnRun(n: nat, seed: Slot, log: seq<Message>, j: nat, k: nat, before: seq<nat>) returns (schedule: seq<nat>)
    requires j < |log| && k < n && Level(Run(Initial(n, seed), log, before), n, j)
    ensures before <= schedule && Together(Run(Initial(n, seed), log, schedule), n, log, j, k)
    ensures Run(Initial(n, seed), log, schedule).shownConfirmed == Run(Initial(n, seed), log, before).shownConfirmed
    decreases k
  {
    hide Step, Level, Together;
    if k == 0 {
      schedule := before;
      LevelIsTogether(Run(Initial(n, seed), log, before), n, log, j);
    } else {
      var most := TurnRun(n, seed, log, j, k - 1, before);
      InTurn(Run(Initial(n, seed), log, most), n, log, j, k - 1);
      schedule := most + [k - 1];
      assert schedule[..|most|] == most;
    }
  }

  /** All readers pass message `j` together, and a confirmed slot is published. */
  lemma RoundRun(n: nat, seed: Slot, log: seq<Message>, j: nat, before: seq<nat>) returns (schedule: seq<nat>)
    requires j < |log| && n > 0 && Level(Run(Initial(n, seed), log, before), n, j)
    ensures before <= schedule && Level(Run(Initial(n, seed), log, schedule), n, j + 1)
    ensures Run(Initial(n, seed), log, schedule).shownConfirmed
            == if log[j].Confirmed? then log[j].slot else Run(Initial(n, seed), log, before).shownConfirmed
  {
    hide Run, Level, Together, Settled;
    var most := TurnRun(n, seed, log, j, n - 1, before);
    LastInTurn(Run(Initial(n, seed), log, most), n, log, j);
    schedule := SettleRun(Initial(n, seed), log, most, n - 1, StepsOf(log[j]));
  }

  /** All readers pass the messages before `j`, none of which confirms a slot. */
  lemma {:induction false} LevelRun(n: nat, seed: Slot, log: seq<Message>, j: nat) returns (schedule: seq<nat>)
    requires n > 0 && j <= |log| && forall i :: 0 <= i < j ==> !log[i].Confirmed?
    ensures Level(Run(Initial(n, seed), log, schedule), n, j)
    ensures Run(Initial(n, seed), log, schedule).shownConfirmed == seed
    decreases j
  {
    hide Level;
    if j == 0 {
      schedule := [];
      InitialIsLevel(n, seed);
    } else {
      var before := LevelRun(n, seed, log, j - 1);
      schedule := RoundRun(n, seed, log, j - 1, before);
    }
  }

  lemma InitialIsLevel(n: nat, seed: Slot)
    ensures Level(Initial(n, seed), n, 0)
  {
    assert FirstReaders(0) == {};
  }

  /** In every schedule the published confirmed slot never decreases. */
  ghost predicate NeverFalls(n: nat, seed: Slot, log: seq<Message>) {
    forall schedule: seq<nat>, k: nat :: k <= |schedule| ==>
      Run(Initial(n, seed), log, schedule[..k]).shownConfirmed <= Run(Initial(n, seed), log, schedule).shownConfirmed
  }

  /**
   The published slot never decreases, in any schedule, exactly when no
   confirmation lies below the slot published at startup. It does when front
   slots were reverted after that slot had been published.
   */
  lemma NeverFallsIff(n: nat, seed: Slot, log: seq<Message>)
    requires Rising(log) && n > 0
    ensures NeverFalls(n, seed, log) <==> AtLeast(log, seed)
  {
    if AtLeast(log, seed) {
      forall schedule: seq<nat>, k: nat | k <= |schedule|
        ensures Run(Initial(n, seed), log, schedule[..k]).shownConfirmed <= Run(Initial(n, seed), log, schedule).shownConfirmed
      {
        NeverDecreases(n, seed, log, schedule, k);
      }
    } else {
      var p := FirstConfirmation(log, seed, 0);
      var before := LevelRun(n, seed, log, p);
      var schedule := RoundRun(n, seed, log, p, before);
      assert schedule[..|before|] == before;
    }
  }

  lemma FirstConfirmation(log: seq<Message>, seed: Slot, from: nat) returns (p: nat)
    requires Rising(log) && !AtLeast(log, seed) && from <= |log| && forall i :: 0 <= i < from ==> !log[i].Confirmed?
    ensures p < |log| && log[p].Confirmed? && log[p].slot < seed && forall i :: 0 <= i < p ==> !log[i].Confirmed?
    decreases |log| - from
  {
    var q :| 0 <= q < |log| && log[q].Confirmed? && log[q].slot < seed;
    if log[from].Confirmed? {
      p := from;
    } else {
      p := FirstConfirmation(log, seed, from + 1);
    }
  }

  // ----- no publication is lost, exactly unless a finalization comes first -----

  /** A finalization at or above the slot precedes position `p`. */
  ghost predicate FinalizedBefore(log: seq<Message>, p: nat)
    requires p < |log|
  {
    exists q: nat :: q < p && log[q].Finalized? && log[q].slot >= log[p].slot
  }

  /** Until every reader has reported position `p`, its entry holds exactly the reports so far. */
  ghost predicate Tracked(s: State, log: seq<Message>, p: nat)
    requires p < |log|
  {
    if AllReported(s, p) then
      s.shownConfirmed >= log[p].slot || exists i :: 0 <= i < |s.readers| && Storing(s.readers[i]) && s.readers[i].pos == p
    else
      forall i {:trigger i in Reports(s.confirmed, log[p].slot)} :: 0 <= i < |s.readers| ==>
        (i in Reports(s.confirmed, log[p].slot) <==> Reported(s.readers[i], p))
  }

  lemma {:induction false} FullCrowd(all: set<nat>, n: nat)
    requires forall r :: r in all <==> 0 <= r < n
    ensures |all| == n
    decreases n
  {
    if n > 0 {
      FullCrowd(all - {n - 1}, n - 1);
      assert all == (all - {n - 1}) + {n - 1};
    } else {
      assert all == {};
    }
  }

  /** The step by which a reader reports position `p` itself. */
  lemma TrackedOwn(s: State, log: seq<Message>, p: nat, r: nat)
    requires Inv(s, log) && p < |log| && log[p].Confirmed? && Tracked(s, log, p)
    requires r < |s.readers| && s.readers[r] == Reader(p, Ready)
    ensures Tracked(Step(s, log, r), log, p)
  {
    hide Honest, Shown, HasReported, Finished, PhaseFits;
    var t, c, n := Step(s, log, r), log[p].slot, |s.readers|;
    assert !Reported(s.readers[r], p) && !AllReported(s, p);
    var all := Reports(s.confirmed, c) + {r};
    Bounded(s.confirmed, c, s.readers, log);
    Crowd(all, n);
    if Complete(s.confirmed, c, r, n) {
      assert Storing(t.readers[r]) && t.readers[r].pos == p;
      forall i | 0 <= i < |t.readers| ensures Reported(t.readers[i], p) {
        assert i in all;
        assert i != r ==> i in Reports(s.confirmed, c) && t.readers[i] == s.readers[i];
      }
    } else {
      assert !AllReported(t, p) by {
        if AllReported(t, p) {
          assert forall i :: 0 <= i < n && i != r ==> Reported(s.readers[i], p) by {
            assert forall i :: 0 <= i < n && i != r ==> t.readers[i] == s.readers[i];
            assert forall i :: 0 <= i < n ==> Reported(t.readers[i], p);
          }
          assert forall i :: 0 <= i < n ==> i in all;
          FullCrowd(all, n);
        }
      }
      assert Reports(t.confirmed, c) == all;
    }
  }

  lemma Bounded(w: Waiting, c: Slot, readers: seq<Reader>, log: seq<Message>)
    requires Honest(w, readers, log, true)
    ensures forall i :: i in Reports(w, c) ==> i < |readers|
  {
    hide HasReported;
    forall i | i in Reports(w, c) ensures i < |readers| {
    }
  }

  /** Any other step of a reader leaves its report of `p` as it was. */
  lemma OtherReport(s: State, log: seq<Message>, p: nat, r: nat)
    requires p < |log| && log[p].Confirmed? && r < |s.readers| && s.readers[r] != Reader(p, Ready)
    requires PhaseFits(s.readers[r], log)
    ensures var t := Step(s, log, r);
            && t.readers == s.readers[r := t.readers[r]]
            && (Reported(t.readers[r], p) <==> Reported(s.readers[r], p))
  {
    hide Report, Complete, Pruned;
    if s.readers[r].phase == Ready {
      hide Resume;
    } else {
      hide Announce;
    }
  }

  /** ... and the entry of `p`, unless it is a prune after everyone has reported. */
  lemma OtherEntry(s: State, log: seq<Message>, p: nat, r: nat)
    requires Inv(s, log) && Rising(log) && p < |log| && log[p].Confirmed?
    requires r < |s.readers| && s.readers[r] != Reader(p, Ready)
    requires |s.readers| == 1 || !FinalizedBefore(log, p)
    requires !AllReported(s, p) && Tracked(s, log, p)
    ensures Reports(Step(s, log, r).confirmed, log[p].slot) == Reports(s.confirmed, log[p].slot)
  {
    hide Honest, Shown, PhaseFits, Finished;
    var a, c := s.readers[r], log[p].slot;
    if a.pos < |log| {
      var m := log[a.pos];
      if a.phase == Ready && m.Confirmed? {
        assert m.slot != c;
      } else if a.phase == Pruning(1) {
        PrunedReports(s.confirmed, m.slot, c);
        if c <= m.slot {
          if |s.readers| == 1 {
            assert Reports(s.confirmed, c) == {} by {
              Bounded(s.confirmed, c, s.readers, log);
              assert !Reported(s.readers[0], p);
            }
          } else {
            PruneIsLate(s, log, p, r);
          }
        }
      }
    }
  }

  lemma PruneIsLate(s: State, log: seq<Message>, p: nat, r: nat)
    requires Inv(s, log) && p < |log| && log[p].Confirmed? && !FinalizedBefore(log, p)
    requires r < |s.readers| && s.readers[r].phase.Pruning? && s.readers[r].pos < |log| && log[p].slot <= log[s.readers[r].pos].slot
    ensures AllReported(s, p)
  {
    hide Honest, Shown, PhaseFits;
    var slot := log[s.readers[r].pos].slot;
    assert Finished(s.readers, log, slot);
    forall i | 0 <= i < |s.readers| ensures Reported(s.readers[i], p) {
      assert HasReported(s.readers[i], log, slot, false);
      var q: nat :| q < |log| && log[q] == Finalized(slot) && Reported(s.readers[i], q);
      assert q > p;
    }
  }

  /** Once everyone has reported `p`, its slot is published or about to be. */
  lemma StoreFollows(s: State, log: seq<Message>, p: nat, r: nat)
    requires Inv(s, log) && Rising(log) && p < |log| && log[p].Confirmed? && log[p].slot > s.seed
    requires AllReported(s, p) && Tracked(s, log, p)
    ensures Tracked(Step(s, log, r), log, p)
  {
    hide Honest, Shown, PhaseFits, Finished, Report, Complete, Pruned, Reported;
    var t := Step(s, log, r);
    Advances(s, log, r);
    AllReportedKept(s, t);
    if s.shownConfirmed >= log[p].slot {
      ShownRises(s, log, r);
    } else {
      var i :| 0 <= i < |s.readers| && Storing(s.readers[i]) && s.readers[i].pos == p;
      if i != r || s.readers[i].phase == Raising(true) {
        assert Storing(t.readers[i]) && t.readers[i].pos == p;
      }
    }
  }

  lemma TrackedStep(s: State, log: seq<Message>, p: nat, r: nat)
    requires Inv(s, log) && Rising(log) && p < |log| && log[p].Confirmed? && log[p].slot > s.seed && Tracked(s, log, p)
    requires |s.readers| == 1 || !FinalizedBefore(log, p)
    ensures Tracked(Step(s, log, r), log, p)
  {
    if AllReported(s, p) {
      StoreFollows(s, log, p, r);
    } else if r < |s.readers| {
      if s.readers[r] == Reader(p, Ready) {
        TrackedOwn(s, log, p, r);
      } else {
        OtherReport(s, log, p, r);
        OtherEntry(s, log, p, r);
        hide Honest, Shown, PhaseFits, Finished, Report, Complete, Pruned, Reported, Step;
        var t := Step(s, log, r);
        var i :| 0 <= i < |s.readers| && !Reported(s.readers[i], p);
        assert !Reported(t.readers[i], p);
      }
    }
  }

  lemma {:induction false} TrackedRun(n: nat, seed: Slot, log: seq<Message>, schedule: seq<nat>, p: nat)
    requires Rising(log) && n > 0 && p < |log| && log[p].Confirmed? && log[p].slot > seed
    requires n == 1 || !FinalizedBefore(log, p)
    ensures Tracked(Run(Initial(n, seed), log, schedule), log, p)
  {
    hide Inv, Rising, Step, Tracked, FinalizedBefore;
    if schedule == [] {
      InitialTracked(n, seed, log, p);
    } else {
      var k := |schedule| - 1;
      TrackedRun(n, seed, log, schedule[..k], p);
      RunKeeps(n, seed, log, schedule[..k]);
      TrackedStep(Run(Initial(n, seed), log, schedule[..k]), log, p, schedule[k]);
    }
  }

  lemma InitialTracked(n: nat, seed: Slot, log: seq<Message>, p: nat)
    requires n > 0 && p < |log|
    ensures Tracked(Initial(n, seed), log, p)
  {
    assert !Reported(Initial(n, seed).readers[0], p);
  }

  lemma NotLost(n: nat, seed: Slot, log: seq<Message>, schedule: seq<nat>, p: nat)
    requires Rising(log) && n > 0 && p < |log| && log[p].Confirmed? && log[p].slot > seed
    requires n == 1 || !FinalizedBefore(log, p)
    requires Passed(Run(Initial(n, seed), log, schedule), p)
    ensures Run(Initial(n, seed), log, schedule).shownConfirmed >= log[p].slot
  {
    hide Run, FinalizedBefore;
    TrackedRun(n, seed, log, schedule, p);
    var s := Run(Initial(n, seed), log, schedule);
    assert forall r :: 0 <= r < |s.readers| ==> Reported(s.readers[r], p);
  }

  ghost predicate Passed(s: State, p: nat) {
    forall r :: 0 <= r < |s.readers| ==> s.readers[r].pos > p
  }

  // ----- a schedule that loses a publication -----

  ghost predicate Below(w: Waiting, bound: nat) {
    forall slot: Slot, i: nat {:trigger i in Reports(w, slot)} :: i in Reports(w, slot) ==> i < bound
  }

  /** Readers below `k` have passed `p`, reader `k` is at `pos`, and nobody has completed anything. */
  ghost predicate Gathered(s: State, n: nat, p: nat, f: nat, slot: Slot, k: nat, pos: nat) {
    && |s.readers| == n && k < n
    && (forall j :: 0 <= j < n ==> s.readers[j] == Reader(if j < k then p + 1 else if j == k then pos else 0, Ready))
    && Below(s.processed, n - 1) && Below(s.confirmed, n - 1) && Below(s.finalized, n - 1)
    && s.shownConfirmed == s.seed
    && (forall j {:trigger j in Reports(s.finalized, slot)} ::
          0 <= j < k || (j == k && pos > f) ==> j in Reports(s.finalized, slot))
  }

  lemma TooFew(w: Waiting, slot: Slot, r: nat, n: nat)
    requires n > 1 && Below(w, n - 1) && r < n - 1
    ensures !Complete(w, slot, r, n) && Below(Report(w, slot, r, n), n - 1)
    ensures forall c, i :: i in Reports(w, c) ==> i in Reports(Report(w, slot, r, n), c)
    ensures r in Reports(Report(w, slot, r, n), slot)
  {
    forall i | i in Reports(w, slot) + {r} ensures i < n - 1 {
    }
    Crowd(Reports(w, slot) + {r}, n - 1);
    ReportBelow(w, slot, r, n, n - 1);
  }

  lemma GatherStep(s: State, n: nat, log: seq<Message>, p: nat, f: nat, k: nat, pos: nat)
    requires f < p < |log| && log[f].Finalized? && n > 1 && k < n - 1 && pos <= p
    requires Gathered(s, n, p, f, log[f].slot, k, pos)
    ensures Gathered(Step(s, log, k), n, p, f, log[f].slot, k, pos + 1)
  {
    hide Report, Complete, Reports, Below;
    var slot := log[pos].slot;
    TooFew(s.processed, slot, k, n);
    TooFew(s.confirmed, slot, k, n);
    TooFew(s.finalized, slot, k, n);
  }

  lemma Gather(n: nat, seed: Slot, log: seq<Message>, p: nat, f: nat, k: nat, pos: nat) returns (schedule: seq<nat>)
    requires f < p < |log| && log[f].Finalized? && n > 1 && k < n && pos <= p + 1 && (k == n - 1 ==> pos == 0)
    ensures Gathered(Run(Initial(n, seed), log, schedule), n, p, f, log[f].slot, k, pos)
    decreases k, pos
  {
    hide Gathered, Step;
    if pos > 0 {
      var before := Gather(n, seed, log, p, f, k, pos - 1);
      schedule := before + [k];
      assert schedule[..|before|] == before;
      GatherStep(Run(Initial(n, seed), log, before), n, log, p, f, k, pos - 1);
    } else if k > 0 {
      schedule := Gather(n, seed, log, p, f, k - 1, p + 1);
      NextReader(Run(Initial(n, seed), log, schedule), n, p, f, log[f].slot, k);
    } else {
      schedule := [];
      NobodyYet(n, seed, p, f, log[f].slot);
    }
  }

  lemma NextReader(s: State, n: nat, p: nat, f: nat, slot: Slot, k: nat)
    requires f < p && 0 < k < n && Gathered(s, n, p, f, slot, k - 1, p + 1)
    ensures Gathered(s, n, p, f, slot, k, 0)
  {
    hide Below, Reports;
  }

  lemma NobodyYet(n: nat, seed: Slot, p: nat, f: nat, slot: Slot)
    requires n > 0
    ensures Gathered(Initial(n, seed), n, p, f, slot, 0, 0)
  {
  }

  /** The last reader on its way: its finalization at `f` prunes the entry the others have left at `p`. */
  ghost predicate Trailing(s: State, n: nat, log: seq<Message>, p: nat, f: nat)
    requires f < p < |log|
  {
    && |s.readers| == n && n > 1
    && (forall j :: 0 <= j < n - 1 ==> s.readers[j] == Reader(p + 1, Ready))
    && s.readers[n - 1].pos <= p + 1
    && (s.readers[n - 1].pos >= p ==> s.readers[n - 1].phase == Ready)
    && PhaseFits(s.readers[n - 1], log)
    && Below(s.finalized, n)
    && s.shownConfirmed < log[p].slot
    && (Ahead(s.readers[n - 1], f) ==> forall j {:trigger j in Reports(s.finalized, log[f].slot)} ::
          0 <= j < n - 1 ==> j in Reports(s.finalized, log[f].slot))
    && (Behind(s.readers[n - 1], f) && s.readers[n - 1].pos <= p ==> Reports(s.confirmed, log[p].slot) == {})
  }

  predicate Ahead(a: Reader, f: nat) {
    a.pos < f || a == Reader(f, Ready)
  }

  predicate Behind(a: Reader, f: nat) {
    a.pos > f || (a.pos == f && a.phase.Pruning? && a.phase.stage >= 2)
  }

  /** `f` is the first finalization at or above the slot of `p`. */
  ghost predicate FirstFinal(log: seq<Message>, p: nat, f: nat) {
    && f < p < |log| && log[f].Finalized? && log[f].slot >= log[p].slot
    && forall q :: 0 <= q < f && log[q].Finalized? ==> log[q].slot < log[p].slot
  }

  /** How many atomic steps lie ahead of the last reader, at most. */
  function Ranks(a: Reader, p: nat): nat {
    if a.pos > p then 0
    else
      5 * (p + 1 - a.pos) - match a.phase
                            case Ready => 0
                            case Raising(_) => 1
                            case Confirming => 2
                            case Pruning(stage) => if stage == 0 then 1 else if stage == 1 then 2 else 3
  }

  lemma TrailingReady(s: State, n: nat, log: seq<Message>, p: nat, f: nat)
    requires Rising(log) && FirstFinal(log, p, f) && log[p].Confirmed? && Trailing(s, n, log, p, f)
    requires s.readers[n - 1].pos <= p && s.readers[n - 1].phase == Ready
    ensures Trailing(Step(s, log, n - 1), n, log, p, f)
    ensures Ranks(Step(s, log, n - 1).readers[n - 1], p) < Ranks(s.readers[n - 1], p)
  {
    hide Step, Ranks, Rising, FirstFinal, PhaseFits, Below;
    if s.readers[n - 1].pos == p {
      TrailingLast(s, n, log, p, f);
    } else if s.readers[n - 1].pos == f {
      TrailingFinalizes(s, n, log, p, f);
    } else {
      TrailingReports(s, n, log, p, f);
    }
  }

  /** At `p` the entry is gone, so the last report completes nothing. */
  lemma TrailingLast(s: State, n: nat, log: seq<Message>, p: nat, f: nat)
    requires Rising(log) && FirstFinal(log, p, f) && log[p].Confirmed? && Trailing(s, n, log, p, f)
    requires s.readers[n - 1] == Reader(p, Ready)
    ensures Trailing(Step(s, log, n - 1), n, log, p, f)
    ensures Ranks(Step(s, log, n - 1).readers[n - 1], p) < Ranks(s.readers[n - 1], p)
  {
    hide Resume, Pruned;
    assert Reports(s.confirmed, log[p].slot) + {n - 1} == {n - 1};
  }

  /** At `f` the last report completes the finalization. */
  lemma TrailingFinalizes(s: State, n: nat, log: seq<Message>, p: nat, f: nat)
    requires Rising(log) && FirstFinal(log, p, f) && log[p].Confirmed? && Trailing(s, n, log, p, f)
    requires s.readers[n - 1] == Reader(f, Ready)
    ensures Trailing(Step(s, log, n - 1), n, log, p, f)
    ensures Ranks(Step(s, log, n - 1).readers[n - 1], p) < Ranks(s.readers[n - 1], p)
  {
    hide Resume, Pruned, Below;
    var slot := log[f].slot;
    ReportBelow(s.finalized, slot, n - 1, n, n);
    Everyone(s.finalized, slot, n);
  }

  lemma Everyone(w: Waiting, slot: Slot, n: nat)
    requires n > 0 && Below(w, n) && forall j {:trigger j in Reports(w, slot)} :: 0 <= j < n - 1 ==> j in Reports(w, slot)
    ensures Complete(w, slot, n - 1, n)
  {
    var all := Reports(w, slot) + {n - 1};
    assert forall i :: i in all ==> i in Reports(w, slot) || i == n - 1;
    assert forall i :: 0 <= i < n - 1 ==> i in Reports(w, slot);
    FullCrowd(all, n);
  }

  /** Elsewhere the entries of `f` and of `p` stay as they are. */
  lemma TrailingReports(s: State, n: nat, log: seq<Message>, p: nat, f: nat)
    requires Rising(log) && FirstFinal(log, p, f) && log[p].Confirmed? && Trailing(s, n, log, p, f)
    requires s.readers[n - 1].pos < p && s.readers[n - 1].pos != f && s.readers[n - 1].phase == Ready
    ensures Trailing(Step(s, log, n - 1), n, log, p, f)
    ensures Ranks(Step(s, log, n - 1).readers[n - 1], p) < Ranks(s.readers[n - 1], p)
  {
    hide Resume, Pruned, Below, Complete;
    var a, t := s.readers[n - 1], Step(s, log, n - 1);
    var m := log[a.pos];
    ReportBelow(s.finalized, m.slot, n - 1, n, n);
    if a.pos < f && m.Finalized? {
      assert m.slot < log[f].slot;
      assert Reports(t.finalized, log[f].slot) == Reports(s.finalized, log[f].slot);
    } else if a.pos > f && m.Confirmed? {
      assert m.slot != log[p].slot;
      assert Reports(t.confirmed, log[p].slot) == {};
    }
  }

  lemma ReportBelow(w: Waiting, slot: Slot, r: nat, n: nat, bound: nat)
    requires Below(w, bound) && r < bound
    ensures Below(Report(w, slot, r, n), bound)
  {
    var u := Report(w, slot, r, n);
    forall c: Slot, i: nat {:trigger i in Reports(u, c)} | i in Reports(u, c) ensures i < bound {
      assert i in Reports(w, c) || i == r;
    }
  }

  lemma PrunedBelow(w: Waiting, slot: Slot, n: nat)
    requires Below(w, n)
    ensures Below(Pruned(w, slot), n)
  {
    var u := Pruned(w, slot);
    forall c: Slot, i: nat {:trigger i in Reports(u, c)} | i in Reports(u, c) ensures i < n {
      assert i in Reports(w, c);
    }
  }

  lemma TrailingStores(s: State, n: nat, log: seq<Message>, p: nat, f: nat)
    requires Rising(log) && FirstFinal(log, p, f) && log[p].Confirmed? && Trailing(s, n, log, p, f)
    requires s.readers[n - 1].pos <= p && (s.readers[n - 1].phase.Raising? || s.readers[n - 1].phase == Confirming)
    ensures Trailing(Step(s, log, n - 1), n, log, p, f)
    ensures Ranks(Step(s, log, n - 1).readers[n - 1], p) < Ranks(s.readers[n - 1], p)
  {
    hide Pruned, Below, Reports, Report, Complete, Announce;
  }

  lemma TrailingPrunes(s: State, n: nat, log: seq<Message>, p: nat, f: nat)
    requires FirstFinal(log, p, f) && log[p].Confirmed? && Trailing(s, n, log, p, f)
    requires s.readers[n - 1].pos <= p && s.readers[n - 1].phase.Pruning?
    ensures Trailing(Step(s, log, n - 1), n, log, p, f)
    ensures Ranks(Step(s, log, n - 1).readers[n - 1], p) < Ranks(s.readers[n - 1], p)
  {
    hide Pruned, Below, Reports, Report, Complete, Announce;
    var slot := log[s.readers[n - 1].pos].slot;
    PrunedBelow(s.finalized, slot, n);
    PrunedReports(s.finalized, slot, log[f].slot);
    PrunedReports(s.confirmed, slot, log[p].slot);
  }

  /** Let the last reader run until it has passed `p`. */
  lemma Drive(n: nat, seed: Slot, log: seq<Message>, p: nat, f: nat, before: seq<nat>) returns (schedule: seq<nat>)
    requires Rising(log) && FirstFinal(log, p, f) && log[p].Confirmed?
    requires Trailing(Run(Initial(n, seed), log, before), n, log, p, f)
    ensures Trailing(Run(Initial(n, seed), log, schedule), n, log, p, f)
    ensures Passed(Run(Initial(n, seed), log, schedule), p)
    decreases Ranks(Run(Initial(n, seed), log, before).readers[n - 1], p)
  {
    hide Rising, FirstFinal, Step, Ranks, PhaseFits, Below;
    var s := Run(Initial(n, seed), log, before);
    if s.readers[n - 1].pos > p {
      schedule := before;
    } else {
      if s.readers[n - 1].phase == Ready {
        TrailingReady(s, n, log, p, f);
      } else if s.readers[n - 1].phase.Pruning? {
        TrailingPrunes(s, n, log, p, f);
      } else {
        TrailingStores(s, n, log, p, f);
      }
      assert (before + [n - 1])[..|before|] == before;
      schedule := Drive(n, seed, log, p, f, before + [n - 1]);
    }
  }

  lemma FirstFinalExists(log: seq<Message>, p: nat, from: nat) returns (f: nat)
    requires p < |log| && FinalizedBefore(log, p) && from <= p
    requires forall q :: 0 <= q < from && log[q].Finalized? ==> log[q].slot < log[p].slot
    ensures FirstFinal(log, p, f)
    decreases p - from
  {
    if from < p && log[from].Finalized? && log[from].slot >= log[p].slot {
      f := from;
    } else {
      f := FirstFinalExists(log, p, from + 1);
    }
  }

  /** A schedule after which every reader has passed `p` and its slot is not published. */
  lemma Loses(n: nat, seed: Slot, log: seq<Message>, p: nat) returns (schedule: seq<nat>)
    requires Rising(log) && n > 1 && p < |log| && log[p].Confirmed? && log[p].slot > seed && FinalizedBefore(log, p)
    ensures Passed(Run(Initial(n, seed), log, schedule), p)
    ensures Run(Initial(n, seed), log, schedule).shownConfirmed < log[p].slot
  {
    var f := FirstFinalExists(log, p, 0);
    var before := Gather(n, seed, log, p, f, n - 1, 0);
    RunKeeps(n, seed, log, before);
    schedule := Drive(n, seed, log, p, f, before);
  }

  /** In every schedule, `p` is published once all readers have passed it. */
  ghost predicate NeverLost(n: nat, seed: Slot, log: seq<Message>, p: nat)
    requires p < |log|
  {
    forall schedule: seq<nat> :: Passed(Run(Initial(n, seed), log, schedule), p) ==>
      Run(Initial(n, seed), log, schedule).shownConfirmed >= log[p].slot
  }

  /**
   A confirmed slot is certain to be published exactly when there is a single
   reader or no finalization of that slot or a later one precedes it in the log.
   */
  lemma NeverLostIff(n: nat, seed: Slot, log: seq<Message>, p: nat)
    requires Rising(log) && n > 0 && p < |log| && log[p].Confirmed? && log[p].slot > seed
    ensures NeverLost(n, seed, log, p) <==> n == 1 || !FinalizedBefore(log, p)
  {
    if n == 1 || !FinalizedBefore(log, p) {
      forall schedule: seq<nat> | Passed(Run(Initial(n, seed), log, schedule), p)
        ensures Run(Initial(n, seed), log, schedule).shownConfirmed >= log[p].slot
      {
        NotLost(n, seed, log, schedule, p);
      }
    } else {
      var schedule := Loses(n, seed, log, p);
    }
  }

  // ----- the shared tables -----

  /** `StoredSlotsRead`, one call at a time; the steps above are its critical sections. */
  class SharedSlots {
    const total: nat
    var processed: Waiting
    var confirmed: Waiting
    var finalized: Waiting
    var shownProcessed: Slot
    var shownConfirmed: Slot
    var shownFinalized: Slot
    var firstAvailable: Option<Slot>     // None is u64::MAX

    /** `seed` is the ring's front slot, which the writer stores before the readers start. */
    constructor (total: nat, seed: Slot)
      ensures this.total == total && processed == map[] && confirmed == map[] && finalized == map[]
      ensures shownProcessed == 0 && shownConfirmed == seed && shownFinalized == 0 && firstAvailable.None?
    {
      this.total := total;
      processed, confirmed, finalized := map[], map[], map[];
      shownProcessed, shownConfirmed, shownFinalized, firstAvailable := 0, seed, 0, None;
    }

    /** `set` on one table. */
    method Set(w: Waiting, r: nat, slot: Slot) returns (after: Waiting, complete: bool)
      ensures after == Report(w, slot, r, total) && complete == Complete(w, slot, r, total)
    {
      after := if slot in w then w else w[slot := {}];
      after := after[slot := after[slot] + {r}];
      complete := |after[slot]| == total;
      if complete {
        after := after - {slot};
      }
    }

    method SetProcessed(r: nat, slot: Slot)
      modifies this`processed, this`shownProcessed
      ensures processed == Report(old(processed), slot, r, total)
      ensures shownProcessed == if Complete(old(processed), slot, r, total) then Max(old(shownProcessed), slot) else old(shownProcessed)
    {
      var complete;
      processed, complete := Set(processed, r, slot);
      if complete {
        shownProcessed := Max(shownProcessed, slot);
      }
    }

    method SetConfirmed(r: nat, slot: Slot)
      modifies this`confirmed, this`shownProcessed, this`shownConfirmed
      ensures confirmed == Report(old(confirmed), slot, r, total)
      ensures if Complete(old(confirmed), slot, r, total)
              then shownConfirmed == slot && shownProcessed == Max(old(shownProcessed), slot)
              else shownConfirmed == old(shownConfirmed) && shownProcessed == old(shownProcessed)
    {
      var complete;
      confirmed, complete := Set(confirmed, r, slot);
      if complete {
        shownProcessed := Max(shownProcessed, slot);
        shownConfirmed := slot;
      }
    }

    /** A completed finalization is published, unless it lies below the store, and prunes all tables. */
    method SetFinalized(r: nat, slot: Slot)
      modifies this`processed, this`confirmed, this`finalized, this`shownFinalized
      ensures if Complete(old(finalized), slot, r, total)
              then && processed == Pruned(old(processed), slot) && confirmed == Pruned(old(confirmed), slot)
                   && finalized == Pruned(Report(old(finalized), slot, r, total), slot)
                   && shownFinalized == (if firstAvailable.Some? && slot >= firstAvailable.value then slot else old(shownFinalized))
              else && finalized == Report(old(finalized), slot, r, total)
                   && processed == old(processed) && confirmed == old(confirmed) && shownFinalized == old(shownFinalized)
    {
      var complete;
      finalized, complete := Set(finalized, r, slot);
      if complete {
        if firstAvailable.Some? && slot >= firstAvailable.value {
          shownFinalized := slot;
        }
        processed := PruneUpTo(processed, slot);
        confirmed := PruneUpTo(confirmed, slot);
        finalized := PruneUpTo(finalized, slot);
      }
    }

    /** Remove the first entry as long as it is not above the slot. */
    method PruneUpTo(w: Waiting, slot: Slot) returns (after: Waiting)
      ensures after == Pruned(w, slot)
    {
      after := w;
      while after != map[]
        invariant forall k :: k in after ==> k in w && after[k] == w[k]
        invariant forall k :: k in w && k !in after ==> k <= slot
        decreases |after|
      {
        ghost var least := Least(after.Keys);
        var first :| first in after.Keys && forall k :: k in after.Keys ==> first <= k;
        if first > slot {
          break;
        }
        assert (after - {first}).Keys == after.Keys - {first};
        after := after - {first};
      }
    }
  }
}
