/**
 The guards of `push_block_front` and `push_block_back` (src/storage/rocksdb.rs)
 and what they keep over whole runs: slots step by one and the heights of the
 slots that were not skipped step by one too.
 */
module PushGuards {
  import opened Common
  import opened Blocks

  datatype Answer = Accepted | Refused | Panicked

  /** The height of `b` must be `step` more than that of its neighbour in the ring. */
  ghost function HeightGuard(neighbour: Option<StoredBlock>, b: StoredBlock, step: int): Answer {
    if neighbour.None? then Accepted
    else if neighbour.value.height.None? then Panicked
    else if b.dead then Accepted
    else if b.height.None? then Panicked
    else if b.height.value == neighbour.value.height.value + step then Accepted else Refused
  }

  ghost function FrontGuard(contents: seq<StoredBlock>, b: StoredBlock): Answer {
    if contents != [] && b.slot != contents[|contents| - 1].slot + 1 then Refused
    else HeightGuard(NewestAlive(contents), b, 1)
  }

  ghost function BackGuard(contents: seq<StoredBlock>, b: StoredBlock): Answer {
    if contents != [] && b.slot + 1 != contents[0].slot then Refused
    else HeightGuard(OldestAlive(contents), b, -1)
  }

  /** Heights of the slots that were not skipped, lowest slot first. */
  ghost function Heights(contents: seq<StoredBlock>): seq<Option<nat>> {
    if contents == [] then []
    else (if contents[0].dead then [] else [contents[0].height]) + Heights(contents[1..])
  }

  ghost predicate Stepping(h: seq<Option<nat>>) {
    && (forall k :: 0 <= k < |h| ==> h[k].Some?)
    && (forall k :: 1 <= k < |h| ==> h[k].value == h[k - 1].value + 1)
  }

  ghost predicate Linked(contents: seq<StoredBlock>) {
    Consecutive(contents) && Stepping(Heights(contents))
  }

  lemma {:induction false} HeightsAppend(a: seq<StoredBlock>, b: seq<StoredBlock>)
    ensures Heights(a + b) == Heights(a) + Heights(b)
  {
    if a == [] {
      assert a + b == b;
    } else {
      assert (a + b)[1..] == a[1..] + b;
      HeightsAppend(a[1..], b);
    }
  }

  ghost function OwnHeight(b: StoredBlock): seq<Option<nat>> {
    if b.dead then [] else [b.height]
  }

  lemma HeightsPush(contents: seq<StoredBlock>, b: StoredBlock)
    ensures Heights(contents + [b]) == Heights(contents) + OwnHeight(b)
    ensures Heights([b] + contents) == OwnHeight(b) + Heights(contents)
  {
    HeightsAppend(contents, [b]);
    HeightsAppend([b], contents);
    assert Heights([b]) == OwnHeight(b) by {
      assert [b][1..] == [];
    }
  }

  lemma {:induction false} NewestHeight(contents: seq<StoredBlock>)
    ensures NewestAlive(contents).None? <==> Heights(contents) == []
    ensures NewestAlive(contents).Some? ==> NewestAlive(contents).value.height == Heights(contents)[|Heights(contents)| - 1]
  {
    if contents != [] {
      var n := |contents| - 1;
      NewestHeight(contents[..n]);
      assert contents == contents[..n] + [contents[n]];
      HeightsPush(contents[..n], contents[n]);
    }
  }

  lemma {:induction false} OldestHeight(contents: seq<StoredBlock>)
    ensures OldestAlive(contents).None? <==> Heights(contents) == []
    ensures OldestAlive(contents).Some? ==> OldestAlive(contents).value.height == Heights(contents)[0]
  {
    if contents != [] {
      OldestHeight(contents[1..]);
    }
  }

  /**
   The guards accept exactly the pushes that keep slots and heights in step. The
   one exception: a block of unknown height is let into a ring of skipped slots.
   */
  lemma FrontGuardIff(contents: seq<StoredBlock>, b: StoredBlock)
    requires Linked(contents)
    ensures Linked(contents + [b]) <==> FrontGuard(contents, b) == Accepted && (b.dead || b.height.Some?)
    ensures FrontGuard(contents, b) == Panicked ==> !b.dead && b.height.None?
  {
    hide Heights, Stepping, Consecutive, NewestAlive;
    NewestHeight(contents);
    HeightsPush(contents, b);
    SteppingSnoc(Heights(contents), b);
    KnownHeights(Heights(contents));
    ConsecutiveSnoc(contents, b);
  }

  lemma KnownHeights(h: seq<Option<nat>>)
    requires Stepping(h)
    ensures h != [] ==> h[0].Some? && h[|h| - 1].Some?
  {
  }

  lemma ConsecutiveSnoc(contents: seq<StoredBlock>, b: StoredBlock)
    requires Consecutive(contents)
    ensures Consecutive(contents + [b]) <==> (contents != [] ==> b.slot == contents[|contents| - 1].slot + 1)
  {
    var all := contents + [b];
    assert all[|contents|] == b;
    if contents != [] {
      assert all[0] == contents[0] && contents[|contents| - 1].slot == contents[0].slot + |contents| - 1;
    }
  }

  lemma ConsecutiveCons(contents: seq<StoredBlock>, b: StoredBlock)
    requires Consecutive(contents)
    ensures Consecutive([b] + contents) <==> (contents != [] ==> b.slot + 1 == contents[0].slot)
  {
    var all := [b] + contents;
    if contents != [] {
      assert all[1] == contents[0];
      if b.slot + 1 == contents[0].slot {
        assert forall i :: 1 <= i < |all| ==> all[i] == contents[i - 1];
      }
    }
  }

  lemma SteppingSnoc(h: seq<Option<nat>>, b: StoredBlock)
    requires Stepping(h)
    ensures Stepping(h + OwnHeight(b)) <==>
            b.dead || (b.height.Some? && (h != [] ==> h[|h| - 1].Some? && b.height.value == h[|h| - 1].value + 1))
  {
    var all := h + OwnHeight(b);
    if !b.dead {
      assert all[|h|] == b.height;
      if h != [] {
        assert all[|h| - 1] == h[|h| - 1];
      }
    } else {
      assert all == h;
    }
  }

  lemma SteppingCons(h: seq<Option<nat>>, b: StoredBlock)
    requires Stepping(h)
    ensures Stepping(OwnHeight(b) + h) <==>
            b.dead || (b.height.Some? && (h != [] ==> h[0].Some? && b.height.value + 1 == h[0].value))
  {
    var all := OwnHeight(b) + h;
    if !b.dead {
      assert all[0] == b.height;
      if h != [] {
        assert all[1] == h[0];
      }
      assert forall k :: 1 <= k < |all| ==> all[k] == h[k - 1];
    } else {
      assert all == h;
    }
  }

  lemma BackGuardIff(contents: seq<StoredBlock>, b: StoredBlock)
    requires Linked(contents)
    ensures Linked([b] + contents) <==> BackGuard(contents, b) == Accepted && (b.dead || b.height.Some?)
    ensures BackGuard(contents, b) == Panicked ==> !b.dead && b.height.None?
  {
    hide Heights, Stepping, Consecutive, OldestAlive;
    OldestHeight(contents);
    HeightsPush(contents, b);
    SteppingCons(Heights(contents), b);
    KnownHeights(Heights(contents));
    ConsecutiveCons(contents, b);
  }

  /** Evictions and removals keep what the guards established. */
  lemma PopsKeep(contents: seq<StoredBlock>)
    requires Linked(contents) && contents != []
    ensures Linked(contents[1..]) && Linked(contents[..|contents| - 1])
  {
    var n := |contents| - 1;
    assert contents == [contents[0]] + contents[1..] && contents == contents[..n] + [contents[n]];
    HeightsPush(contents[1..], contents[0]);
    HeightsPush(contents[..n], contents[n]);
    var h := Heights(contents);
    assert Heights(contents[1..]) == h[|OwnHeight(contents[0])|..];
    assert Heights(contents[..n]) == h[..|h| - |OwnHeight(contents[n])|];
  }

  /** A message the guards let through: a push they accept, with its height known, or any pop. */
  ghost predicate Guarded(contents: seq<StoredBlock>, m: Message) {
    match m
    case PushFront(b) => FrontGuard(contents, b) == Accepted && (b.dead || b.height.Some?)
    case PushBack(b) => BackGuard(contents, b) == Accepted && (b.dead || b.height.Some?)
    case PopBack => contents != []
    case PopFront => contents != []
  }

  ghost predicate AllGuarded(contents: seq<StoredBlock>, log: seq<Message>) {
    forall i :: 0 <= i < |log| ==> Guarded(ApplyAll(contents, log[..i]), log[i])
  }

  /** Over every guarded run, slots are consecutive and heights step by one. */
  lemma {:induction false} GuardedRunsStayLinked(contents: seq<StoredBlock>, log: seq<Message>)
    requires Linked(contents) && AllGuarded(contents, log)
    ensures Linked(ApplyAll(contents, log))
  {
    hide Linked, Guarded, FrontGuard, BackGuard;
    if log != [] {
      var n := |log| - 1;
      assert forall i :: 0 <= i < n ==> log[..n][..i] == log[..i];
      GuardedRunsStayLinked(contents, log[..n]);
      GuardedStep(ApplyAll(contents, log[..n]), log[n]);
    }
  }

  lemma GuardedStep(contents: seq<StoredBlock>, m: Message)
    requires Linked(contents) && Guarded(contents, m)
    ensures Linked(Apply(contents, m))
  {
    hide Linked, FrontGuard, BackGuard;
    match m {
      case PushFront(b) => FrontGuardIff(contents, b);
      case PushBack(b) => BackGuardIff(contents, b);
      case PopBack => PopsKeep(contents);
      case PopFront => PopsKeep(contents);
    }
  }

  /** So between any two stored blocks the height rises exactly with the number of blocks. */
  lemma {:induction false} HeightsCount(h: seq<Option<nat>>, i: nat, j: nat)
    requires Stepping(h) && i <= j < |h|
    ensures h[j].value == h[i].value + (j - i)
    decreases j
  {
    if i < j {
      HeightsCount(h, i, j - 1);
    }
  }

  /**
   A block of unknown height in a ring of skipped slots is accepted, and then
   every push above it panics, even that of a skipped slot.
   */
  lemma UnknownHeightPanics(contents: seq<StoredBlock>, b: StoredBlock, next: StoredBlock)
    requires NewestAlive(contents).None? && !b.dead && b.height.None?
    requires contents != [] ==> b.slot == contents[|contents| - 1].slot + 1
    requires next.slot == b.slot + 1
    ensures FrontGuard(contents, b) == Accepted && FrontGuard(contents + [b], next) == Panicked
  {
    assert (contents + [b])[|contents|] == b;
  }
}
