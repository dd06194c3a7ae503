/**
 Confirmed `getBlocks` answers (src/storage/read.rs, src/storage/blocks.rs): what
 a request sees while the newest slot is confirmed but not yet in the ring.
 */
module BlockQueries {
  import opened Common
  import opened Circular
  import opened Blocks

  /** From the oldest to the newest slot, `get_blocks` is a filter of the sequence. */
  lemma StartWithinRing(contents: seq<StoredBlock>, cap: nat, start: Slot, end: Slot, until: Until)
    requires Consecutive(contents) && contents != [] && |contents| <= cap
    requires contents[0].slot <= start <= contents[|contents| - 1].slot && end <= contents[|contents| - 1].slot
    ensures BlocksAnswer(contents, cap, start, end, until)
            == Slots(Truncate(AliveIn(contents, start, ScanEnd(end, until)), until))
  {
    hide AliveIn, Truncate, Consecutive;
    var k := start - contents[0].slot;
    Span(contents);
    SlotAt(contents, k);
    ModUnique(k, cap, 0, k);
  }

  lemma SlotAt(contents: seq<StoredBlock>, k: nat)
    requires Consecutive(contents) && k < |contents|
    ensures contents[k].slot == contents[0].slot + k
  {
  }

  /** What a request asks for: the blocks from `start` to the end of its scan, cut at the limit. */
  ghost function Asked(contents: seq<StoredBlock>, start: Slot, end: Slot, until: Until): SlotsResult {
    Slots(Truncate(AliveIn(contents, start, ScanEnd(end, until)), until))
  }

  ghost predicate HasBlock(contents: seq<StoredBlock>, slot: Slot) {
    exists b :: b in contents && b.slot == slot && !b.dead
  }

  /** The slot is in the range of a request. */
  ghost predicate InRange(slot: Slot, start: Slot, end: Slot, until: Until) {
    start <= slot <= end && (until.EndSlot? ==> slot <= until.slot)
  }

  /**
   What is asked for, slot by slot: slots of the range that hold a block, in
   rising order and no more than the limit; one that holds a block is missing
   only behind the last of a full answer.
   */
  lemma AskedIs(contents: seq<StoredBlock>, start: Slot, end: Slot, until: Until)
    requires Consecutive(contents)
    ensures var slots := Asked(contents, start, end, until).slots;
      && (forall i, j :: 0 <= i < j < |slots| ==> slots[i] < slots[j])
      && (until.Limit? ==> |slots| <= until.count)
      && (forall s :: s in slots ==> InRange(s, start, end, until) && HasBlock(contents, s))
      && forall b :: b in contents && !b.dead && InRange(b.slot, start, end, until) && b.slot !in slots ==>
           until.Limit? && |slots| == until.count && forall s :: s in slots ==> s < b.slot
  {
    hide Consecutive;
    var all := AliveIn(contents, start, ScanEnd(end, until));
    AliveInIs(contents, start, ScanEnd(end, until));
    TruncateIs(all, until);
    assert Asked(contents, start, end, until).slots == Truncate(all, until);
    assert forall s :: s in all ==> InRange(s, start, end, until);
  }

  /** Cutting a rising list at the limit leaves its first part. */
  lemma TruncateIs(all: seq<Slot>, until: Until)
    requires forall i, j :: 0 <= i < j < |all| ==> all[i] < all[j]
    ensures var slots := Truncate(all, until);
      && slots <= all && (until.Limit? ==> |slots| <= until.count)
      && (forall i, j :: 0 <= i < j < |slots| ==> slots[i] < slots[j])
      && (forall s :: s in slots ==> s in all)
      && forall s :: s in all && s !in slots ==> until.Limit? && |slots| == until.count && forall u :: u in slots ==> u < s
  {
    var slots := Truncate(all, until);
    forall s | s in all && s !in slots ensures forall u :: u in slots ==> u < s {
      var k :| 0 <= k < |all| && all[k] == s;
      assert k >= |slots| by {
        assert forall i :: 0 <= i < |slots| ==> slots[i] == all[i];
      }
    }
  }

  lemma {:induction false} AliveInIs(contents: seq<StoredBlock>, lo: Slot, hi: Slot)
    requires Consecutive(contents)
    ensures var all := AliveIn(contents, lo, hi);
      && (forall i, j :: 0 <= i < j < |all| ==> all[i] < all[j])
      && (forall s :: s in all ==> lo <= s <= hi && HasBlock(contents, s))
      && forall b :: b in contents && !b.dead && lo <= b.slot <= hi ==> b.slot in all
  {
    if contents != [] {
      var n := |contents| - 1;
      AliveInIs(contents[..n], lo, hi);
      assert contents == contents[..n] + [contents[n]];
      var before := AliveIn(contents[..n], lo, hi);
      forall i | 0 <= i < |before| ensures before[i] < contents[n].slot {
        assert before[i] in before;
        var b :| b in contents[..n] && b.slot == before[i] && !b.dead;
        var j :| 0 <= j < n && contents[j] == b;
      }
      assert contents[n] in contents;
      forall s | HasBlock(contents[..n], s) ensures HasBlock(contents, s) {
        var b :| b in contents[..n] && b.slot == s && !b.dead;
        assert b in contents;
      }
    }
  }

  /** The cell the start slot maps to, in steps from the oldest one. */
  function CellOf(contents: seq<StoredBlock>, cap: nat, start: Slot): nat
    requires contents != [] && cap > 0 && contents[0].slot <= start
  {
    (start - contents[0].slot) % cap
  }

  /** From cell `k` on the scan meets no block up to `end`, or was asked for none. */
  ghost predicate NothingFrom(contents: seq<StoredBlock>, k: nat, end: Slot, until: Until) {
    until == Limit(0) || forall i :: k <= i < |contents| ==> contents[i].dead || contents[i].slot > end
  }

  lemma {:induction false} AliveInNone(contents: seq<StoredBlock>, lo: Slot, hi: Slot)
    ensures AliveIn(contents, lo, hi) == [] <==>
            forall i :: 0 <= i < |contents| ==> contents[i].dead || contents[i].slot < lo || contents[i].slot > hi
  {
    if contents != [] {
      var n := |contents| - 1;
      AliveInNone(contents[..n], lo, hi);
      assert forall i :: 0 <= i < n ==> contents[..n][i] == contents[i];
    }
  }

  /** A scan that starts at cell `k` finds nothing. */
  lemma ScanFindsNothing(contents: seq<StoredBlock>, k: nat, end: Slot, until: Until)
    requires Consecutive(contents) && k < |contents|
    ensures Truncate(AliveIn(contents, contents[k].slot, end), until) == [] <==> NothingFrom(contents, k, end, until)
  {
    hide AliveIn;
    AliveInNone(contents, contents[k].slot, end);
    assert forall i :: 0 <= i < k ==> contents[i].slot < contents[k].slot;
    assert forall i :: k <= i < |contents| ==> contents[k].slot <= contents[i].slot;
  }

  /**
   For every start from the oldest slot up, `get_blocks` answers what was asked
   exactly when the start is not above the newest slot, or the cell it maps to
   is empty, or the scan from that cell meets no block up to its end.
   */
  lemma AnswerIsRightIff(contents: seq<StoredBlock>, cap: nat, start: Slot, end: Slot, until: Until)
    requires Consecutive(contents) && contents != [] && |contents| <= cap
    requires contents[0].slot <= start && end <= contents[|contents| - 1].slot
    requires until.EndSlot? ==> start <= until.slot
    ensures BlocksAnswer(contents, cap, start, end, until) == Asked(contents, start, end, until) <==>
            var k := CellOf(contents, cap, start);
            start <= contents[|contents| - 1].slot || k >= |contents| || NothingFrom(contents, k, end, until)
  {
    hide AliveIn, Consecutive, NothingFrom;
    var k := CellOf(contents, cap, start);
    if start <= contents[|contents| - 1].slot {
      StartWithinRing(contents, cap, start, end, until);
    } else {
      Span(contents);
      NoneAbove(contents, start, ScanEnd(end, until));
      if k < |contents| {
        ScanFindsNothing(contents, k, end, until);
      }
    }
  }

  /** Above the newest slot of a full ring the arithmetic lands on the oldest cell. */
  lemma StartAboveRingMisses()
    ensures var ten := StoredBlock(true, false, 10, None, Some(1), 0, 0, 1);
      BlocksAnswer([ten], 1, 11, 10, Limit(5)) == Slots([10])
  {
    var ten := StoredBlock(true, false, 10, None, Some(1), 0, 0, 1);
    assert AliveIn([ten][..0], 10, 10) == [];
    assert AliveIn([ten], 10, 10) == [10];
  }

  /** Raising the upper bound past the newest slot adds nothing. */
  lemma {:induction false} AliveInAbove(contents: seq<StoredBlock>, lo: Slot, hi: Slot, higher: Slot)
    requires Consecutive(contents) && hi <= higher
    requires contents != [] ==> contents[|contents| - 1].slot <= hi
    ensures AliveIn(contents, lo, higher) == AliveIn(contents, lo, hi)
  {
    if contents != [] {
      AliveInAbove(contents[..|contents| - 1], lo, hi, higher);
    }
  }

  /** Evicting slots below the requested range does not change the answer. */
  lemma {:induction false} AliveInEvicted(contents: seq<StoredBlock>, m: nat, lo: Slot, hi: Slot)
    requires Consecutive(contents) && m <= |contents|
    requires forall i :: 0 <= i < m ==> contents[i].slot < lo
    ensures AliveIn(contents[m..], lo, hi) == AliveIn(contents, lo, hi)
    decreases |contents|
  {
    var n := |contents| - 1;
    if m == |contents| {
      assert contents[m..] == [];
      AliveInPrefix(contents, 0, lo, hi);
      assert contents[..0] == [];
    } else {
      AliveInEvicted(contents[..n], m, lo, hi);
      assert contents[m..][..n - m] == contents[..n][m..];
    }
  }

  /**
   The answer while `newest` is confirmed and in process: the ring up to the slot
   before it, then `newest` itself if it holds a block and the request reaches it.
   */
  ghost function Overlaid(contents: seq<StoredBlock>, cap: nat, newest: StoredBlock, start: Slot, until: Until): SlotsResult
    requires cap > 0 && newest.slot > 0
  {
    match BlocksAnswer(contents, cap, start, newest.slot - 1, until)
    case Slots(slots) =>
      var reaches := match until case EndSlot(end) => newest.slot <= end case Limit(count) => |slots| < count;
      Slots(if !newest.dead && start <= newest.slot && reaches then slots + [newest.slot] else slots)
    case other => other
  }

  /** The ring after the push, `evicted` oldest records having made room. */
  ghost function Pushed(contents: seq<StoredBlock>, evicted: nat, newest: StoredBlock): seq<StoredBlock>
    requires evicted <= |contents|
  {
    contents[evicted..] + [newest]
  }

  lemma PushedConsecutive(contents: seq<StoredBlock>, evicted: nat, newest: StoredBlock)
    requires Consecutive(contents) && contents != [] && evicted <= |contents|
    requires newest.slot == contents[|contents| - 1].slot + 1
    ensures var after := Pushed(contents, evicted, newest);
      |after| == |contents| - evicted + 1 && Consecutive(after) && after[|after| - 1] == newest && after[0].slot == contents[0].slot + evicted
  {
    var after := Pushed(contents, evicted, newest);
    assert forall i :: 0 <= i < |contents| - evicted ==> after[i] == contents[evicted + i];
  }

  ghost predicate Precedes(contents: seq<StoredBlock>, newest: StoredBlock) {
    contents != [] && Consecutive(contents) && newest.slot == contents[|contents| - 1].slot + 1
  }

  /** What the push makes of a range that ends at the newest slot. */
  lemma PushedAlive(contents: seq<StoredBlock>, evicted: nat, newest: StoredBlock, lo: Slot, hi: Slot)
    requires Precedes(contents, newest) && evicted <= |contents| && contents[0].slot + evicted <= lo
    requires hi <= newest.slot
    ensures AliveIn(Pushed(contents, evicted, newest), lo, hi)
            == AliveIn(contents, lo, if hi < newest.slot then hi else newest.slot - 1)
               + if !newest.dead && lo <= newest.slot <= hi then [newest.slot] else []
  {
    AliveInEvicted(contents, evicted, lo, hi);
    if hi == newest.slot {
      AliveInAbove(contents, lo, hi - 1, hi);
    }
  }

  /**
   A confirmed request answered before the push equals the one answered after
   it, for both request forms and for dead newest slots, when it starts in the
   ring, or at the newest slot while the ring still has a free cell.
   */
  lemma OverlayInvisible(contents: seq<StoredBlock>, cap: nat, evicted: nat, newest: StoredBlock, start: Slot, until: Until)
    requires Precedes(contents, newest) && |contents| <= cap
    requires evicted <= |contents| && |contents| - evicted + 1 <= cap
    requires contents[0].slot + evicted <= start <= newest.slot
    requires start == newest.slot ==> |contents| < cap
    requires until.EndSlot? ==> start <= until.slot
    ensures Overlaid(contents, cap, newest, start, until)
            == BlocksAnswer(Pushed(contents, evicted, newest), cap, start, newest.slot, until)
  {
    hide AliveIn, Consecutive, Truncate, BlocksAnswer, Pushed;
    var after := Pushed(contents, evicted, newest);
    PushedConsecutive(contents, evicted, newest);
    StartWithinRing(after, cap, start, newest.slot, until);
    PushedAlive(contents, evicted, newest, start, ScanEnd(newest.slot, until));
    OldAnswer(contents, cap, newest, start, until);
    Extended(AliveIn(contents, start, ScanEnd(newest.slot - 1, until)), newest, start, until);
  }

  /** What the ring answers before the push, from a start up to the newest slot. */
  lemma OldAnswer(contents: seq<StoredBlock>, cap: nat, newest: StoredBlock, start: Slot, until: Until)
    requires Precedes(contents, newest) && |contents| <= cap && contents[0].slot <= start <= newest.slot
    requires start == newest.slot ==> |contents| < cap
    ensures BlocksAnswer(contents, cap, start, newest.slot - 1, until)
            == Slots(Truncate(AliveIn(contents, start, ScanEnd(newest.slot - 1, until)), until))
  {
    hide AliveIn, Consecutive;
    if start < newest.slot {
      StartWithinRing(contents, cap, start, newest.slot - 1, until);
    } else {
      Span(contents);
      ModUnique(start - contents[0].slot, cap, 0, start - contents[0].slot);
      NoneAbove(contents, start, ScanEnd(newest.slot - 1, until));
    }
  }

  /** Appending the newest slot before or after cutting the list to size is the same. */
  lemma Extended(alive: seq<Slot>, newest: StoredBlock, start: Slot, until: Until)
    requires start <= newest.slot
    ensures var cut := Truncate(alive, until);
            var reaches := match until case EndSlot(end) => newest.slot <= end case Limit(count) => |cut| < count;
            var own := if !newest.dead && start <= newest.slot <= ScanEnd(newest.slot, until) then [newest.slot] else [];
            (if !newest.dead && start <= newest.slot && reaches then cut + [newest.slot] else cut)
            == Truncate(alive + own, until)
  {
  }

  lemma Span(contents: seq<StoredBlock>)
    requires Consecutive(contents) && contents != []
    ensures contents[|contents| - 1].slot == contents[0].slot + |contents| - 1
  {
  }

  lemma NoneAbove(contents: seq<StoredBlock>, lo: Slot, hi: Slot)
    requires Consecutive(contents) && hi < lo
    ensures AliveIn(contents, lo, hi) == []
  {
    AliveInPrefix(contents, 0, lo, hi);
    assert contents[..0] == [];
  }

  /**
   The answer while `newest` is in process, for every start from the oldest slot
   up: it is what was asked of the ring with `newest` in it exactly when the
   start lies below `newest`, or maps to an empty cell, or the scan from that
   cell meets no block below `newest`.
   */
  lemma OverlayIsRightIff(contents: seq<StoredBlock>, cap: nat, newest: StoredBlock, start: Slot, until: Until)
    requires Precedes(contents, newest) && |contents| <= cap && contents[0].slot <= start
    requires until.EndSlot? ==> start <= until.slot
    ensures Overlaid(contents, cap, newest, start, until) == Asked(contents + [newest], start, newest.slot, until) <==>
            var k := CellOf(contents, cap, start);
            start < newest.slot || k >= |contents| || NothingFrom(contents, k, newest.slot - 1, until)
  {
    hide AliveIn, Consecutive, NothingFrom, BlocksAnswer, Truncate;
    if start < newest.slot {
      OverlaidBelow(contents, cap, newest, start, until);
    } else {
      OverlaidFromNewest(contents, cap, newest, start, until);
    }
  }

  lemma OverlaidBelow(contents: seq<StoredBlock>, cap: nat, newest: StoredBlock, start: Slot, until: Until)
    requires Precedes(contents, newest) && |contents| <= cap && contents[0].slot <= start < newest.slot
    requires until.EndSlot? ==> start <= until.slot
    ensures Overlaid(contents, cap, newest, start, until) == Asked(contents + [newest], start, newest.slot, until)
  {
    hide AliveIn, Consecutive, BlocksAnswer, Truncate;
    assert Pushed(contents, 0, newest) == contents + [newest];
    OldAnswer(contents, cap, newest, start, until);
    PushedAlive(contents, 0, newest, start, ScanEnd(newest.slot, until));
    Extended(AliveIn(contents, start, ScanEnd(newest.slot - 1, until)), newest, start, until);
  }

  /** At or above `newest` the ring itself should contribute nothing. */
  lemma OverlaidFromNewest(contents: seq<StoredBlock>, cap: nat, newest: StoredBlock, start: Slot, until: Until)
    requires Precedes(contents, newest) && |contents| <= cap && newest.slot <= start
    requires until.EndSlot? ==> start <= until.slot
    ensures Overlaid(contents, cap, newest, start, until) == Asked(contents + [newest], start, newest.slot, until) <==>
            var k := CellOf(contents, cap, start);
            k >= |contents| || NothingFrom(contents, k, newest.slot - 1, until)
  {
    hide AliveIn, Consecutive, NothingFrom, BlocksAnswer;
    Span(contents);
    AnswerIsRightIff(contents, cap, start, newest.slot - 1, until);
    NoneAbove(contents, start, newest.slot - 1);
    NewestAlone(contents, newest, start);
    SeenIsBelow(contents, cap, newest, start, until);
    AppendedToNothing(BlocksAnswer(contents, cap, start, newest.slot - 1, until).slots, newest, start, until);
  }

  /** Appending `newest` gives what was asked only if nothing came before it. */
  lemma AppendedToNothing(seen: seq<Slot>, newest: StoredBlock, start: Slot, until: Until)
    requires newest.slot <= start && (until.EndSlot? ==> start <= until.slot)
    requires forall x :: x in seen ==> x < newest.slot
    ensures var reaches := match until case EndSlot(end) => newest.slot <= end case Limit(count) => |seen| < count;
            var right := Truncate(if !newest.dead && start == newest.slot then [newest.slot] else [], until);
            (if !newest.dead && start <= newest.slot && reaches then seen + [newest.slot] else seen) == right
            <==> seen == []
  {
    if seen != [] {
      assert seen[0] in seen;
    }
  }

  /** Of the ring with `newest` in it, only `newest` can lie at or above it. */
  lemma NewestAlone(contents: seq<StoredBlock>, newest: StoredBlock, start: Slot)
    requires Precedes(contents, newest) && newest.slot <= start
    ensures AliveIn(contents + [newest], start, newest.slot)
            == if !newest.dead && start == newest.slot then [newest.slot] else []
  {
    assert (contents + [newest])[..|contents|] == contents;
    Span(contents);
    AliveInPrefix(contents, 0, start, newest.slot);
    assert contents[..0] == [];
  }

  /** What the ring answers below `newest` never contains `newest`. */
  lemma SeenIsBelow(contents: seq<StoredBlock>, cap: nat, newest: StoredBlock, start: Slot, until: Until)
    requires Precedes(contents, newest) && |contents| <= cap && contents[0].slot <= start
    requires until.EndSlot? ==> start <= until.slot
    ensures var answer := BlocksAnswer(contents, cap, start, newest.slot - 1, until);
            answer.Slots? && forall x :: x in answer.slots ==> x < newest.slot
  {
    hide AliveIn;
    Span(contents);
    var k := CellOf(contents, cap, start);
    if k < |contents| {
      var seen := AliveIn(contents, contents[k].slot, ScanEnd(newest.slot - 1, until));
      AliveInBelow(contents, contents[k].slot, ScanEnd(newest.slot - 1, until));
      forall x | x in Truncate(seen, until) ensures x < newest.slot {
        assert x in seen;
      }
    }
  }

  /**
   A request that starts at the newest slot of a full ring reads the oldest cell
   instead. The answer is that of the ring after the push exactly when the ring
   holds no block at all or nothing was asked for.
   */
  lemma OverlayAtNewestOfFullRing(contents: seq<StoredBlock>, cap: nat, evicted: nat, newest: StoredBlock, until: Until)
    requires Precedes(contents, newest) && |contents| == cap && 0 < evicted <= cap
    requires until.EndSlot? ==> newest.slot <= until.slot
    ensures Overlaid(contents, cap, newest, newest.slot, until)
            == BlocksAnswer(Pushed(contents, evicted, newest), cap, newest.slot, newest.slot, until)
            <==> AliveIn(contents, contents[0].slot, newest.slot - 1) == [] || until == Limit(0)
  {
    hide AliveIn, Consecutive, BlocksAnswer, Overlaid, Pushed, NothingFrom, Asked, CellOf;
    PushedAtNewest(contents, cap, evicted, newest, until);
    FullRingWraps(contents, cap, newest);
    OverlayIsRightIff(contents, cap, newest, newest.slot, until);
    NothingFromOldest(contents, newest.slot - 1, until);
  }

  /** A request at the newest slot after the push answers what was asked. */
  lemma PushedAtNewest(contents: seq<StoredBlock>, cap: nat, evicted: nat, newest: StoredBlock, until: Until)
    requires Precedes(contents, newest) && |contents| == cap && 0 < evicted <= cap
    requires until.EndSlot? ==> newest.slot <= until.slot
    ensures BlocksAnswer(Pushed(contents, evicted, newest), cap, newest.slot, newest.slot, until)
            == Asked(contents + [newest], newest.slot, newest.slot, until)
  {
    hide AliveIn, Consecutive, BlocksAnswer, Pushed, Truncate;
    Span(contents);
    PushedConsecutive(contents, evicted, newest);
    StartWithinRing(Pushed(contents, evicted, newest), cap, newest.slot, newest.slot, until);
    PushedAlive(contents, evicted, newest, newest.slot, newest.slot);
    NoneAbove(contents, newest.slot, newest.slot - 1);
    NewestAlone(contents, newest, newest.slot);
    var own := if !newest.dead then [newest.slot] else [];
    assert [] + own == own;
    assert AliveIn(Pushed(contents, evicted, newest), newest.slot, newest.slot) == own;
    assert AliveIn(contents + [newest], newest.slot, newest.slot) == own;
    assert ScanEnd(newest.slot, until) == newest.slot;
  }

  /** One slot above a full ring the cells start over. */
  lemma FullRingWraps(contents: seq<StoredBlock>, cap: nat, newest: StoredBlock)
    requires Precedes(contents, newest) && |contents| == cap
    ensures contents[0].slot <= newest.slot && CellOf(contents, cap, newest.slot) == 0
  {
    hide Consecutive;
    Span(contents);
    ModUnique(newest.slot - contents[0].slot, cap, 1, 0);
  }

  lemma NothingFromOldest(contents: seq<StoredBlock>, end: Slot, until: Until)
    requires Consecutive(contents) && contents != []
    ensures NothingFrom(contents, 0, end, until) <==> AliveIn(contents, contents[0].slot, end) == [] || until == Limit(0)
  {
    hide AliveIn;
    ScanFindsNothing(contents, 0, end, until);
  }

  /** A ring that is not full, and a start two slots above the newest: two unrelated slots come back. */
  lemma OverlayAboveRingMisses()
    ensures var b := (slot: Slot) => StoredBlock(true, false, slot, None, Some(1), 0, 0, 1);
            && Overlaid([b(10), b(11)], 3, b(12), 13, Limit(5)) == Slots([10, 11])
            && Asked([b(10), b(11), b(12)], 13, 12, Limit(5)) == Slots([])
  {
    var b := (slot: Slot) => StoredBlock(true, false, slot, None, Some(1), 0, 0, 1);
    var two, three := [b(10), b(11)], [b(10), b(11), b(12)];
    assert two[..1] == [b(10)] && two[..1][..0] == [] && three[..2] == two;
    assert AliveIn([b(10)], 10, 11) == [10];
    assert AliveIn(two, 10, 11) == [10, 11];
    AliveInNone(three, 13, 12);
  }

  lemma {:induction false} AliveInBelow(contents: seq<StoredBlock>, lo: Slot, hi: Slot)
    ensures forall x :: x in AliveIn(contents, lo, hi) ==> lo <= x <= hi
  {
    if contents != [] {
      AliveInBelow(contents[..|contents| - 1], lo, hi);
    }
  }
}
