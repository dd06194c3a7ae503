/**
 The slot ring and its replicas (src/storage/blocks.rs).

 The writer keeps one record per slot in a circular buffer addressed by slot
 arithmetic, and broadcasts every push and pop. Each reader replays that log on
 its own copy, together with an index of block times. Both rings are specified
 by the plain sequence of records they stand for, lowest slot first.
 */
module Blocks {
  import opened Common
  import opened Circular

  datatype StoredBlock = StoredBlock(
    exists_: bool, dead: bool, slot: Slot, time: Option<int>, height: Option<nat>,
    storageId: nat, offset: nat, size: nat)

  const NoBlock := StoredBlock(false, false, 0, None, None, 0, 0, 0)

  function DeadBlock(slot: Slot): StoredBlock {
    StoredBlock(true, true, slot, None, None, 0, 0, 0)
  }

  /** `contents` is what the cells hold from `tail` to `head`; all other cells are empty. */
  ghost predicate Represents(cells: seq<StoredBlock>, tail: nat, head: nat, contents: seq<StoredBlock>) {
    var n := |cells|;
    && tail < n && |contents| <= n
    && head == (if contents == [] then Before(tail, n) else Ahead(tail, |contents| - 1, n))
    && (forall i :: 0 <= i < |contents| ==> contents[i].exists_ && cells[Ahead(tail, i, n)] == contents[i])
    && (forall i :: |contents| <= i < n ==> !cells[Ahead(tail, i, n)].exists_)
  }

  /** Slots step by one, as the guards of the writer enforce. */
  ghost predicate Consecutive(contents: seq<StoredBlock>) {
    forall i :: 0 <= i < |contents| ==> contents[i].slot == contents[0].slot + i
  }

  // ----- the broadcast log -----

  datatype Message = PushBack(block: StoredBlock) | PushFront(block: StoredBlock) | PopBack | PopFront

  /** What the writer guarantees when it sends `m` with `contents` stored and `cap` cells. */
  ghost predicate Sendable(contents: seq<StoredBlock>, m: Message, cap: nat) {
    match m
    case PushBack(b) => |contents| < cap && b.exists_ && (contents != [] ==> b.slot + 1 == contents[0].slot)
    case PushFront(b) =>
      |contents| < cap && b.exists_ && (contents != [] ==> b.slot == contents[|contents| - 1].slot + 1)
    case PopBack => contents != []
    case PopFront => contents != []
  }

  ghost function Apply(contents: seq<StoredBlock>, m: Message): seq<StoredBlock> {
    match m
    case PushBack(b) => [b] + contents
    case PushFront(b) => contents + [b]
    case PopBack => if contents == [] then [] else contents[1..]
    case PopFront => if contents == [] then [] else contents[..|contents| - 1]
  }

  ghost function ApplyAll(contents: seq<StoredBlock>, log: seq<Message>): seq<StoredBlock> {
    if log == [] then contents
    else Apply(ApplyAll(contents, log[..|log| - 1]), log[|log| - 1])
  }

  /** Every message of the log was legitimate when it was sent. */
  ghost predicate LogSendable(contents: seq<StoredBlock>, log: seq<Message>, cap: nat) {
    forall i :: 0 <= i < |log| ==> Sendable(ApplyAll(contents, log[..i]), log[i], cap)
  }

  lemma ApplyKeeps(contents: seq<StoredBlock>, m: Message, cap: nat)
    requires Consecutive(contents) && |contents| <= cap && Sendable(contents, m, cap)
    ensures Consecutive(Apply(contents, m)) && |Apply(contents, m)| <= cap
  {
  }

  /** The log up to its last message was legitimate, and so was that message. */
  lemma SendableBefore(contents: seq<StoredBlock>, log: seq<Message>, cap: nat)
    requires log != [] && LogSendable(contents, log, cap)
    ensures LogSendable(contents, log[..|log| - 1], cap)
    ensures Sendable(ApplyAll(contents, log[..|log| - 1]), log[|log| - 1], cap)
  {
    hide Apply, ApplyAll, Sendable;
    var n := |log| - 1;
    assert forall i :: 0 <= i < n ==> log[..n][..i] == log[..i];
  }

  lemma {:induction false} LogKeeps(contents: seq<StoredBlock>, log: seq<Message>, cap: nat)
    requires Consecutive(contents) && |contents| <= cap && LogSendable(contents, log, cap)
    ensures Consecutive(ApplyAll(contents, log)) && |ApplyAll(contents, log)| <= cap
  {
    hide Apply, Sendable, Consecutive;
    if log != [] {
      var n := |log| - 1;
      SendableBefore(contents, log, cap);
      LogKeeps(contents, log[..n], cap);
      ApplyKeeps(ApplyAll(contents, log[..n]), log[n], cap);
    }
  }

  // ----- the time index -----

  ghost predicate Timed(b: StoredBlock) {
    !b.dead && b.time.Some?
  }

  /** The (time, slot) pairs of the live, non-dead blocks. */
  ghost function TimeIndex(contents: seq<StoredBlock>): set<(int, Slot)> {
    set b | b in contents && Timed(b) :: (b.time.value, b.slot)
  }

  lemma EmptyTimeIndex()
    ensures TimeIndex([]) == {}
  {
  }

  lemma TimeIndexPush(contents: seq<StoredBlock>, b: StoredBlock)
    ensures TimeIndex([b] + contents) == TimeIndex(contents) + OwnTime(b)
    ensures TimeIndex(contents + [b]) == TimeIndex(contents) + OwnTime(b)
  {
    assert forall x :: x in [b] + contents <==> x == b || x in contents;
    assert forall x :: x in contents + [b] <==> x == b || x in contents;
    assert TimeIndex([b] + contents) == TimeIndex(contents) + OwnTime(b);
    assert TimeIndex(contents + [b]) == TimeIndex(contents) + OwnTime(b);
  }

  /** Slots are distinct, so removing one pair removes one block's entry only. */
  lemma TimeIndexPop(contents: seq<StoredBlock>)
    requires Consecutive(contents) && contents != []
    ensures TimeIndex(contents[1..]) == TimeIndex(contents) - OwnTime(contents[0])
    ensures TimeIndex(contents[..|contents| - 1]) == TimeIndex(contents) - OwnTime(contents[|contents| - 1])
  {
    var n := |contents| - 1;
    assert contents == [contents[0]] + contents[1..];
    TimeIndexPush(contents[1..], contents[0]);
    assert contents == contents[..n] + [contents[n]];
    TimeIndexPush(contents[..n], contents[n]);
  }

  ghost function OwnTime(b: StoredBlock): set<(int, Slot)> {
    if Timed(b) then {(b.time.value, b.slot)} else {}
  }

  // ----- ring steps -----

  /** What the two end cells hold. */
  lemma RingEnds(cells: seq<StoredBlock>, tail: nat, head: nat, contents: seq<StoredBlock>)
    requires Represents(cells, tail, head, contents)
    ensures tail < |cells| && head < |cells| && |contents| <= |cells|
    ensures contents == [] ==> !cells[tail].exists_ && !cells[head].exists_
    ensures contents != [] ==>
              && cells[tail] == contents[0] && cells[head] == contents[|contents| - 1]
              && contents[0].exists_ && contents[|contents| - 1].exists_
    ensures |contents| == |cells| ==> Ahead(head, 1, |cells|) == tail && Before(tail, |cells|) == head
    ensures |contents| < |cells| ==> !cells[Ahead(head, 1, |cells|)].exists_ && !cells[Before(tail, |cells|)].exists_
    ensures |contents| > 1 ==> head != tail
  {
    var n := |cells|;
    assert Ahead(tail, 0, n) == tail;
    assert Ahead(tail, n - 1, n) == Before(tail, n);
    if |contents| < n {
      assert Ahead(head, 1, n) == Ahead(tail, |contents|, n);
    }
  }

  lemma PushFrontRepresents(cells: seq<StoredBlock>, tail: nat, head: nat, contents: seq<StoredBlock>, b: StoredBlock)
    requires Represents(cells, tail, head, contents) && |contents| < |cells| && b.exists_
    ensures Represents(cells[Ahead(head, 1, |cells|) := b], tail, Ahead(head, 1, |cells|), contents + [b])
  {
    assert Ahead(head, 1, |cells|) == Ahead(tail, |contents|, |cells|);
  }

  lemma PushBackRepresents(cells: seq<StoredBlock>, tail: nat, head: nat, contents: seq<StoredBlock>, b: StoredBlock)
    requires Represents(cells, tail, head, contents) && |contents| < |cells| && b.exists_
    ensures Represents(cells[Before(tail, |cells|) := b], Before(tail, |cells|), head, [b] + contents)
  {
    var n := |cells|;
    var t := Before(tail, n);
    assert forall i :: 0 < i < n ==> Ahead(t, i, n) == Ahead(tail, i - 1, n);
  }

  lemma PopBackRepresents(cells: seq<StoredBlock>, tail: nat, head: nat, contents: seq<StoredBlock>)
    requires Represents(cells, tail, head, contents) && contents != []
    ensures Represents(cells[tail := NoBlock], Ahead(tail, 1, |cells|), head, contents[1..])
  {
    var n := |cells|;
    var t := Ahead(tail, 1, n);
    assert forall i :: 0 <= i < n - 1 ==> Ahead(t, i, n) == Ahead(tail, i + 1, n);
    assert Ahead(t, n - 1, n) == tail;
  }

  lemma PopFrontRepresents(cells: seq<StoredBlock>, tail: nat, head: nat, contents: seq<StoredBlock>)
    requires Represents(cells, tail, head, contents) && contents != []
    ensures Represents(cells[head := NoBlock], tail, Before(head, |cells|), contents[..|contents| - 1])
  {
    assert head == Ahead(tail, |contents| - 1, |cells|);
  }

  // ----- the writer -----

  class StoredBlocksWrite {
    const blocks: array<StoredBlock>
    var tail: nat
    var head: nat
    /** The published `first_available` slot; None is the program's `u64::MAX`. */
    var firstAvailable: Option<Slot>
    /** The broadcast channel: everything sent since the readers were initialised. */
    var log: seq<Message>
    ghost var contents: seq<StoredBlock>
    /** What the readers were initialised with. */
    ghost var initial: seq<StoredBlock>

    ghost predicate Valid()
      reads this, blocks
    {
      && blocks.Length > 0
      && Represents(blocks[..], tail, head, contents)
      && Consecutive(contents) && Consecutive(initial) && |initial| <= blocks.Length
      && LogSendable(initial, log, blocks.Length)
      && contents == ApplyAll(initial, log)
    }

    /** `new`: the records read from disk, consecutive from the lowest slot, then empty cells. */
    constructor (loaded: seq<StoredBlock>, max: nat)
      requires 0 < max && |loaded| <= max
      requires Consecutive(loaded) && forall b :: b in loaded ==> b.exists_
      ensures Valid() && contents == loaded && log == [] && blocks.Length == max && fresh(blocks) && tail == 0
      ensures firstAvailable == if loaded == [] then None else Some(loaded[0].slot)
    {
      blocks := new StoredBlock[max](i requires 0 <= i => if i < |loaded| then loaded[i] else NoBlock);
      tail := 0;
      head := if |loaded| == 0 then max - 1 else |loaded| - 1;
      firstAvailable := if |loaded| == 0 then None else Some(loaded[0].slot);
      log, contents, initial := [], loaded, loaded;
    }

    lemma Ends()
      requires Valid()
      ensures tail < blocks.Length && head < blocks.Length && |contents| <= blocks.Length
      ensures contents == [] ==> !blocks[tail].exists_ && !blocks[head].exists_
      ensures contents != [] ==>
                && blocks[tail] == contents[0] && blocks[head] == contents[|contents| - 1]
                && contents[0].exists_ && contents[|contents| - 1].exists_
      ensures |contents| == blocks.Length ==>
                Ahead(head, 1, blocks.Length) == tail && Before(tail, blocks.Length) == head
      ensures |contents| < blocks.Length ==>
                !blocks[Ahead(head, 1, blocks.Length)].exists_ && !blocks[Before(tail, blocks.Length)].exists_
      ensures |contents| > 1 ==> head != tail
    {
      RingEnds(blocks[..], tail, head, contents);
    }

    method IsFull() returns (full: bool)
      requires Valid()
      ensures full <==> |contents| == blocks.Length
    {
      Ends();
      WrapMod(head + 1, blocks.Length);
      var next := (head + 1) % blocks.Length;
      full := blocks[next].exists_;
    }

    /** `get_stored_boundaries`: one pass over the cells, in array order. */
    method GetStoredBoundaries() returns (m: map<nat, Boundaries>)
      requires Valid()
      ensures AllBounds(m, contents)
    {
      hide LogSendable, ApplyAll, Consecutive, Represents, AllBounds;
      m := map[];
      NoBounds();
      for i := 0 to blocks.Length
        invariant AllBounds(m, blocks[..i])
      {
        var block := blocks[i];
        WidenedBounds(m, blocks[..i], block);
        assert blocks[..i + 1] == blocks[..i] + [block];
        m := Widened(m, block);
      }
      assert blocks[..blocks.Length] == blocks[..];
      CellsAreContents(blocks[..], tail, head, contents);
      SameBounds(m, blocks[..], contents);
    }

    method GetBackSlot() returns (r: Option<Slot>)
      requires Valid()
      ensures r == if contents == [] then None else Some(contents[0].slot)
    {
      Ends();
      r := if blocks[tail].exists_ && blocks[head].exists_ then Some(blocks[tail].slot) else None;
    }

    method GetFrontSlot() returns (r: Option<Slot>)
      requires Valid()
      ensures r == if contents == [] then None else Some(contents[|contents| - 1].slot)
    {
      Ends();
      r := if blocks[head].exists_ then Some(blocks[head].slot) else None;
    }

    lemma CellAt(k: nat)
      requires Valid() && k < |contents|
      ensures tail < blocks.Length && k <= blocks.Length
      ensures blocks[Ahead(tail, k, blocks.Length)] == contents[k] && contents[k].exists_
      ensures Ahead(tail, k, blocks.Length) == head <==> k == |contents| - 1
    {
      ghost var cells := blocks[..];
      assert blocks[Ahead(tail, k, blocks.Length)] == cells[Ahead(tail, k, blocks.Length)];
    }

    /** `get_back_height`: scan on from the oldest record to the first that is not dead. */
    method GetBackHeight() returns (r: Option<StoredBlock>)
      requires Valid()
      ensures r == OldestAlive(contents)
    {
      hide LogSendable, ApplyAll, Consecutive, Represents;
      Ends();
      if !blocks[tail].exists_ || !blocks[head].exists_ {
        return None;
      }
      var index := tail;
      ghost var done: nat := 0;
      assert contents[0..] == contents;
      while true
        invariant done < |contents| && index == Ahead(tail, done, blocks.Length)
        invariant OldestAlive(contents) == OldestAlive(contents[done..])
        decreases |contents| - done
      {
        CellAt(done);
        AliveFrom(contents, done);
        if blocks[index].exists_ && !blocks[index].dead {
          return Some(blocks[index]);
        }
        if index == head {
          return None;
        }
        WrapMod(index + 1, blocks.Length);
        index := (index + 1) % blocks.Length;
        done := done + 1;
      }
    }

    /** `get_front_height`: scan back from the newest record to the first that is not dead. */
    method GetFrontHeight() returns (r: Option<StoredBlock>)
      requires Valid()
      ensures r == NewestAlive(contents)
    {
      hide LogSendable, ApplyAll, Consecutive, Represents;
      Ends();
      var index := head;
      ghost var left: nat := Distance(tail, head, blocks.Length);
      if contents != [] {
        HeadAt();
      }
      assert contents[..|contents|] == contents;
      while true
        invariant left < blocks.Length && index == Ahead(tail, left, blocks.Length)
        invariant contents != [] ==> left < |contents| && NewestAlive(contents) == NewestAlive(contents[..left + 1])
        decreases left
      {
        if contents != [] {
          CellAt(left);
          AliveUpTo(contents, left);
        } else {
          NoCell(index);
        }
        if blocks[index].exists_ && !blocks[index].dead {
          return Some(blocks[index]);
        }
        if index == tail {
          return None;
        }
        index := Before(index, blocks.Length);
        left := left - 1;
      }
    }

    lemma HeadAt()
      requires Valid() && contents != []
      ensures tail < blocks.Length && head < blocks.Length && Distance(tail, head, blocks.Length) == |contents| - 1
    {
    }

    lemma NoCell(at: nat)
      requires Valid() && contents == [] && at < blocks.Length
      ensures !blocks[at].exists_
    {
      ghost var cells := blocks[..];
      assert !cells[Ahead(tail, Distance(tail, at, blocks.Length), blocks.Length)].exists_;
      assert blocks[at] == cells[at];
    }

    /** `push_block_front2`; a full ring is an error that leaves `head` advanced. */
    method PushBlockFront(block: StoredBlock) returns (ok: bool)
      requires Valid() && block.exists_
      requires contents != [] ==> block.slot == contents[|contents| - 1].slot + 1
      modifies this, blocks
      ensures ok <==> |old(contents)| < blocks.Length
      ensures ok ==> Valid() && log == old(log) + [PushFront(block)] && contents == old(contents) + [block]
      ensures ok && old(contents) != [] ==> firstAvailable == old(firstAvailable)
      ensures ok && old(contents) == [] ==>
                firstAvailable == if old(tail) == 0 then Some(block.slot) else old(firstAvailable)
      ensures initial == old(initial)
    {
      hide LogSendable, ApplyAll, Consecutive, Represents;
      ghost var cells, h := blocks[..], head;
      Ends();
      WrapMod(head + 1, blocks.Length);
      head := (head + 1) % blocks.Length;
      if blocks[head].exists_ {
        return false;
      }
      PushFrontRepresents(cells, tail, h, contents, block);
      SendKeeps(initial, log, contents, PushFront(block), blocks.Length);
      log := log + [PushFront(block)];
      blocks[head] := block;
      assert blocks[..] == cells[head := block];
      contents := contents + [block];
      Ends();
      if tail == 0 && head == 0 {
        firstAvailable := Some(blocks[tail].slot);
      }
      ok := true;
    }

    method PushBlockBack(block: StoredBlock) returns (ok: bool)
      requires Valid() && block.exists_
      requires contents != [] ==> block.slot + 1 == contents[0].slot
      modifies this, blocks
      ensures ok <==> |old(contents)| < blocks.Length
      ensures ok ==> Valid() && log == old(log) + [PushBack(block)] && contents == [block] + old(contents)
      ensures ok ==> firstAvailable == Some(block.slot)
      ensures initial == old(initial)
    {
      hide LogSendable, ApplyAll, Consecutive, Represents;
      ghost var cells, t := blocks[..], tail;
      Ends();
      tail := Before(tail, blocks.Length);
      if blocks[tail].exists_ {
        return false;
      }
      PushBackRepresents(cells, t, head, contents, block);
      SendKeeps(initial, log, contents, PushBack(block), blocks.Length);
      log := log + [PushBack(block)];
      blocks[tail] := block;
      assert blocks[..] == cells[tail := block];
      contents := [block] + contents;
      firstAvailable := Some(block.slot);
      ok := true;
    }

    /** `pop_block_back` publishes the new first slot before anything else can happen to the block. */
    method PopBlockBack() returns (r: Option<StoredBlock>)
      requires Valid()
      modifies this, blocks
      ensures Valid() && initial == old(initial)
      ensures r == if old(contents) == [] then None else Some(old(contents)[0])
      ensures r.None? ==> contents == old(contents) && log == old(log) && firstAvailable == old(firstAvailable)
      ensures r.Some? ==>
                && contents == old(contents)[1..] && log == old(log) + [PopBack] && tail == Ahead(old(tail), 1, blocks.Length)
                && firstAvailable == if contents == [] then None else Some(contents[0].slot)
    {
      hide LogSendable, ApplyAll, Consecutive, Represents;
      ghost var cells, t := blocks[..], tail;
      Ends();
      if !blocks[tail].exists_ {
        return None;
      }
      PopBackRepresents(cells, tail, head, contents);
      SendKeeps(initial, log, contents, PopBack, blocks.Length);
      r := Some(blocks[tail]);
      blocks[tail] := NoBlock;
      assert blocks[..] == cells[t := NoBlock];
      WrapMod(tail + 1, blocks.Length);
      tail := (tail + 1) % blocks.Length;
      contents := contents[1..];
      log := log + [PopBack];
      firstAvailable := GetBackSlot();
    }

    method PopBlockFront() returns (r: Option<StoredBlock>)
      requires Valid()
      modifies this, blocks
      ensures Valid() && initial == old(initial) && firstAvailable == old(firstAvailable)
      ensures r == if old(contents) == [] then None else Some(old(contents)[|old(contents)| - 1])
      ensures r.None? ==> contents == old(contents) && log == old(log)
      ensures r.Some? ==> contents == old(contents)[..|old(contents)| - 1] && log == old(log) + [PopFront]
    {
      hide LogSendable, ApplyAll, Consecutive, Represents;
      ghost var cells, h := blocks[..], head;
      Ends();
      if !blocks[head].exists_ {
        return None;
      }
      PopFrontRepresents(cells, tail, head, contents);
      SendKeeps(initial, log, contents, PopFront, blocks.Length);
      r := Some(blocks[head]);
      blocks[head] := NoBlock;
      assert blocks[..] == cells[h := NoBlock];
      head := Before(head, blocks.Length);
      contents := contents[..|contents| - 1];
      log := log + [PopFront];
    }
  }

  // ----- the boundaries of the storage files -----

  /** The lowest and the highest stored block of a file. */
  datatype Boundaries = Boundaries(min: StoredBlock, max: StoredBlock)

  ghost predicate InFile(b: StoredBlock, id: nat) {
    b.exists_ && !b.dead && b.storageId == id
  }

  ghost predicate Bounds(m: Boundaries, blocks: seq<StoredBlock>, id: nat) {
    && m.min in blocks && InFile(m.min, id) && m.max in blocks && InFile(m.max, id)
    && forall b :: b in blocks && InFile(b, id) ==> m.min.slot <= b.slot <= m.max.slot
  }

  /** Every file that holds a block is listed, with its lowest and highest one. */
  ghost predicate AllBounds(m: map<nat, Boundaries>, blocks: seq<StoredBlock>) {
    && (forall id :: id in m ==> Bounds(m[id], blocks, id))
    && (forall b :: b in blocks && b.exists_ && !b.dead ==> b.storageId in m)
  }

  lemma NoBounds()
    ensures AllBounds(map[], [])
  {
  }

  /** Which cells hold a record does not depend on where they lie in the array. */
  lemma CellsAreContents(cells: seq<StoredBlock>, tail: nat, head: nat, contents: seq<StoredBlock>)
    requires Represents(cells, tail, head, contents)
    ensures forall b: StoredBlock :: b.exists_ ==> (b in cells <==> b in contents)
  {
    var n := |cells|;
    forall b: StoredBlock | b.exists_ ensures b in cells <==> b in contents {
      if b in cells {
        var p :| 0 <= p < n && cells[p] == b;
        var k := Distance(tail, p, n);
        assert Ahead(tail, k, n) == p;
      }
      if b in contents {
        var i :| 0 <= i < |contents| && contents[i] == b;
        assert cells[Ahead(tail, i, n)] == b;
      }
    }
  }

  lemma SameBounds(m: map<nat, Boundaries>, a: seq<StoredBlock>, b: seq<StoredBlock>)
    requires AllBounds(m, a) && forall x: StoredBlock :: x.exists_ ==> (x in a <==> x in b)
    ensures AllBounds(m, b)
  {
  }

  /** One more record. */
  function Widened(m: map<nat, Boundaries>, b: StoredBlock): map<nat, Boundaries> {
    if !b.exists_ || b.dead then m
    else if b.storageId !in m then m[b.storageId := Boundaries(b, b)]
    else
      var known := m[b.storageId];
      m[b.storageId := Boundaries(if b.slot < known.min.slot then b else known.min, if b.slot > known.max.slot then b else known.max)]
  }

  lemma WidenedBounds(m: map<nat, Boundaries>, blocks: seq<StoredBlock>, b: StoredBlock)
    requires AllBounds(m, blocks)
    ensures AllBounds(Widened(m, b), blocks + [b])
  {
    var more, wide := blocks + [b], Widened(m, b);
    forall id | id in wide ensures Bounds(wide[id], more, id) {
      if id in m {
        assert Bounds(m[id], blocks, id);
      }
    }
  }

  /** A ring emptied once does not publish its next front slot: readers still see no slot available. */
  method EmptiedRingStaysHidden() returns (first: Option<Slot>, front: Option<Slot>)
    ensures first == None && front == Some(11)
  {
    var ring := new StoredBlocksWrite([StoredBlock(true, false, 10, None, Some(1), 0, 0, 1)], 3);
    var popped := ring.PopBlockBack();
    var ok := ring.PushBlockFront(StoredBlock(true, false, 11, None, Some(2), 0, 1, 1));
    front := ring.GetFrontSlot();
    first := ring.firstAvailable;
  }

  /** The newest record that is not dead. */
  ghost function OldestAlive(contents: seq<StoredBlock>): Option<StoredBlock> {
    if contents == [] then None
    else if !contents[0].dead then Some(contents[0])
    else OldestAlive(contents[1..])
  }

  lemma AliveFrom(contents: seq<StoredBlock>, k: nat)
    requires k < |contents|
    ensures OldestAlive(contents[k..]) == if contents[k].dead then OldestAlive(contents[k + 1..]) else Some(contents[k])
    ensures contents[|contents|..] == [] && OldestAlive([]) == None
  {
    assert contents[k..][1..] == contents[k + 1..];
  }

  ghost function NewestAlive(contents: seq<StoredBlock>): Option<StoredBlock> {
    if contents == [] then None
    else if !contents[|contents| - 1].dead then Some(contents[|contents| - 1])
    else NewestAlive(contents[..|contents| - 1])
  }

  lemma AliveUpTo(contents: seq<StoredBlock>, k: nat)
    requires k < |contents|
    ensures NewestAlive(contents[..k + 1]) == if contents[k].dead then NewestAlive(contents[..k]) else Some(contents[k])
    ensures contents[..0] == [] && NewestAlive([]) == None
  {
    assert contents[..k + 1][..k] == contents[..k];
  }

  lemma SendKeeps(initial: seq<StoredBlock>, log: seq<Message>, contents: seq<StoredBlock>, m: Message, cap: nat)
    requires LogSendable(initial, log, cap) && contents == ApplyAll(initial, log)
    requires Consecutive(contents) && |contents| <= cap && Sendable(contents, m, cap)
    ensures LogSendable(initial, log + [m], cap)
    ensures ApplyAll(initial, log + [m]) == Apply(contents, m) && Consecutive(Apply(contents, m))
  {
    var longer := log + [m];
    assert longer[..|log|] == log;
    forall i | 0 <= i < |longer| ensures Sendable(ApplyAll(initial, longer[..i]), longer[i], cap) {
      if i < |log| {
        assert longer[..i] == log[..i];
      }
    }
    ApplyKeeps(contents, m, cap);
  }

  // ----- the readers -----

  datatype Location = Removed | IsDead | NotAvailable | SlotMismatch | Located(block: StoredBlock)

  datatype Until = EndSlot(slot: Slot) | Limit(count: nat)

  datatype SlotsResult = StartRemoved | EndOutOfLimit | Slots(slots: seq<Slot>)

  /** The plain search the ring arithmetic stands for. */
  ghost function Search(contents: seq<StoredBlock>, slot: Slot): Option<StoredBlock> {
    if contents == [] then None
    else if contents[0].slot == slot then Some(contents[0])
    else Search(contents[1..], slot)
  }

  lemma {:induction false} SearchFinds(contents: seq<StoredBlock>, slot: Slot)
    requires Consecutive(contents)
    ensures Search(contents, slot) ==
            if contents != [] && contents[0].slot <= slot < contents[0].slot + |contents|
            then Some(contents[slot - contents[0].slot]) else None
  {
    if contents != [] && contents[0].slot != slot {
      SearchFinds(contents[1..], slot);
    }
  }

  /** Slots in `[lo, hi]` that hold a block, in order. */
  ghost function AliveIn(contents: seq<StoredBlock>, lo: Slot, hi: Slot): seq<Slot> {
    if contents == [] then []
    else
      var n := |contents| - 1;
      AliveIn(contents[..n], lo, hi) +
      if !contents[n].dead && lo <= contents[n].slot <= hi then [contents[n].slot] else []
  }

  ghost function Truncate(slots: seq<Slot>, until: Until): seq<Slot> {
    if until.Limit? && until.count < |slots| then slots[..until.count] else slots
  }

  function ScanEnd(end: Slot, until: Until): Slot {
    if until.EndSlot? && until.slot < end then until.slot else end
  }

  /** Nothing of `contents[from..]` lies in `[lo, hi]`. */
  lemma {:induction false} AliveInPrefix(contents: seq<StoredBlock>, from: nat, lo: Slot, hi: Slot)
    requires Consecutive(contents) && from <= |contents|
    requires forall i :: from <= i < |contents| ==> !(lo <= contents[i].slot <= hi)
    ensures AliveIn(contents, lo, hi) == AliveIn(contents[..from], lo, hi)
  {
    var n := |contents| - 1;
    if from == |contents| {
      assert contents[..from] == contents;
    } else {
      AliveInPrefix(contents[..n], from, lo, hi);
      assert contents[..n][..from] == contents[..from];
    }
  }

  lemma {:induction false} AliveInGrows(contents: seq<StoredBlock>, from: nat, lo: Slot, hi: Slot)
    requires from <= |contents|
    ensures AliveIn(contents[..from], lo, hi) <= AliveIn(contents, lo, hi)
  {
    var n := |contents| - 1;
    if from == |contents| {
      assert contents[..from] == contents;
    } else {
      AliveInGrows(contents[..n], from, lo, hi);
      assert contents[..n][..from] == contents[..from];
    }
  }

  lemma AliveInStart(contents: seq<StoredBlock>, k: nat, hi: Slot)
    requires Consecutive(contents) && k < |contents|
    ensures AliveIn(contents[..k], contents[k].slot, hi) == []
  {
    AliveInPrefix(contents[..k], 0, contents[k].slot, hi);
    assert contents[..k][..0] == [];
  }

  lemma AliveInStep(contents: seq<StoredBlock>, i: nat, lo: Slot, hi: Slot)
    requires i < |contents|
    ensures AliveIn(contents[..i + 1], lo, hi) ==
            AliveIn(contents[..i], lo, hi) +
            if !contents[i].dead && lo <= contents[i].slot <= hi then [contents[i].slot] else []
  {
    assert contents[..i + 1][..i] == contents[..i];
  }

  class StoredBlocksRead {
    const blocks: array<StoredBlock>
    var tail: nat
    var head: nat
    var timeIndex: set<(int, Slot)>
    ghost var contents: seq<StoredBlock>

    ghost predicate Valid()
      reads this, blocks
    {
      && blocks.Length > 0
      && Represents(blocks[..], tail, head, contents)
      && Consecutive(contents)
      && timeIndex == TimeIndex(contents)
    }

    /** `to_read`: a copy of the writer's ring and the times of its live blocks. */
    constructor (writer: StoredBlocksWrite)
      requires writer.Valid()
      ensures Valid() && contents == writer.contents && blocks.Length == writer.blocks.Length && fresh(blocks)
    {
      blocks := new StoredBlock[writer.blocks.Length]
        (i requires 0 <= i < writer.blocks.Length reads writer, writer.blocks => writer.blocks[i]);
      tail, head, contents := writer.tail, writer.head, writer.contents;
      timeIndex := {};
      new;
      assert blocks[..] == writer.blocks[..];
      CollectTimes();
    }

    /** The scan from `tail` to `head` that fills the time index. */
    method CollectTimes()
      requires blocks.Length > 0 && Represents(blocks[..], tail, head, contents)
      modifies this`timeIndex
      ensures timeIndex == TimeIndex(contents)
    {
      hide TimeIndex;
      ghost var cells := blocks[..];
      RingEnds(cells, tail, head, contents);
      timeIndex := {};
      EmptyTimeIndex();
      if blocks[tail].exists_ {
        var index := tail;
        ghost var done := 0;
        assert contents[..0] == [];
        while true
          invariant 0 <= done < |contents| && index == Ahead(tail, done, blocks.Length)
          invariant timeIndex == TimeIndex(contents[..done])
          decreases |contents| - done
        {
          assert cells[index] == contents[done];
          var block := blocks[index];
          TimeIndexPush(contents[..done], contents[done]);
          assert contents[..done + 1] == contents[..done] + [contents[done]];
          if block.exists_ && !block.dead && block.time.Some? {
            timeIndex := timeIndex + {(block.time.value, block.slot)};
          }
          if index == head {
            assert contents[..done + 1] == contents;
            break;
          }
          WrapMod(index + 1, blocks.Length);
          index := (index + 1) % blocks.Length;
          done := done + 1;
        }
      }
    }

    method PopBlockBack()
      requires Valid() && contents != []
      modifies this, blocks
      ensures Valid() && contents == Apply(old(contents), PopBack)
    {
      hide Consecutive, Represents, TimeIndex;
      ghost var cells, t := blocks[..], tail;
      Ends();
      PopBackRepresents(cells, tail, head, contents);
      TimeIndexPop(contents);
      ApplyKeeps(contents, PopBack, blocks.Length);
      var gone := blocks[tail];
      if gone.exists_ && !gone.dead && gone.time.Some? {
        timeIndex := timeIndex - {(gone.time.value, gone.slot)};
      }
      blocks[tail] := NoBlock;
      assert blocks[..] == cells[t := NoBlock];
      WrapMod(tail + 1, blocks.Length);
      tail := (tail + 1) % blocks.Length;
      contents := contents[1..];
    }

    method PopBlockFront()
      requires Valid() && contents != []
      modifies this, blocks
      ensures Valid() && contents == Apply(old(contents), PopFront)
    {
      hide Consecutive, Represents, TimeIndex;
      ghost var cells, h := blocks[..], head;
      Ends();
      PopFrontRepresents(cells, tail, head, contents);
      TimeIndexPop(contents);
      ApplyKeeps(contents, PopFront, blocks.Length);
      var gone := blocks[head];
      if gone.exists_ && !gone.dead && gone.time.Some? {
        timeIndex := timeIndex - {(gone.time.value, gone.slot)};
      }
      blocks[head] := NoBlock;
      assert blocks[..] == cells[h := NoBlock];
      head := Before(head, blocks.Length);
      contents := contents[..|contents| - 1];
    }

    method PushBlockBack(block: StoredBlock)
      requires Valid() && Sendable(contents, PushBack(block), blocks.Length)
      modifies this, blocks
      ensures Valid() && contents == Apply(old(contents), PushBack(block))
    {
      hide Consecutive, Represents, TimeIndex;
      ghost var cells, t := blocks[..], tail;
      Ends();
      PushBackRepresents(cells, tail, head, contents, block);
      TimeIndexPush(contents, block);
      ApplyKeeps(contents, PushBack(block), blocks.Length);
      tail := Before(tail, blocks.Length);
      if !block.dead && block.time.Some? {
        timeIndex := timeIndex + {(block.time.value, block.slot)};
      }
      blocks[tail] := block;
      assert blocks[..] == cells[tail := block];
      contents := [block] + contents;
    }

    method PushBlockFront(block: StoredBlock)
      requires Valid() && Sendable(contents, PushFront(block), blocks.Length)
      modifies this, blocks
      ensures Valid() && contents == Apply(old(contents), PushFront(block))
    {
      hide Consecutive, Represents, TimeIndex;
      ghost var cells, h := blocks[..], head;
      Ends();
      PushFrontRepresents(cells, tail, head, contents, block);
      TimeIndexPush(contents, block);
      ApplyKeeps(contents, PushFront(block), blocks.Length);
      WrapMod(head + 1, blocks.Length);
      head := (head + 1) % blocks.Length;
      if !block.dead && block.time.Some? {
        timeIndex := timeIndex + {(block.time.value, block.slot)};
      }
      blocks[head] := block;
      assert blocks[..] == cells[head := block];
      contents := contents + [block];
    }

    /**
     The reader's message loop over a prefix of the log: the replica holds what
     the writer held when it sent the last of these messages.
     */
    method Replay(log: seq<Message>)
      requires Valid() && LogSendable(contents, log, blocks.Length)
      modifies this, blocks
      ensures Valid() && contents == ApplyAll(old(contents), log)
    {
      assert log[..0] == [];
      for i := 0 to |log|
        invariant Valid() && contents == ApplyAll(old(contents), log[..i])
      {
        assert Sendable(contents, log[i], blocks.Length);
        assert log[..i + 1][..i] == log[..i];
        match log[i] {
          case PushBack(b) => PushBlockBack(b);
          case PushFront(b) => PushBlockFront(b);
          case PopBack => PopBlockBack();
          case PopFront => PopBlockFront();
        }
      }
      assert log[..|log|] == log;
    }

    /** O(1) lookup: it agrees with a search of the sequence and never sees a mismatched cell. */
    method GetBlockLocation(slot: Slot) returns (r: Location)
      requires Valid()
      ensures r != SlotMismatch
      ensures match Search(contents, slot)
              case Some(b) => r == if b.dead then IsDead else Located(b)
              case None => r == if contents == [] || slot < contents[0].slot then Removed else NotAvailable
    {
      SearchFinds(contents, slot);
      Ends();
      var first := blocks[tail];
      if !first.exists_ || slot < first.slot {
        return Removed;
      }
      var last := blocks[head];
      if !last.exists_ || last.slot < slot {
        return NotAvailable;
      }
      AheadMod(tail, slot - first.slot, blocks.Length);
      ModUnique(slot - first.slot, blocks.Length, 0, slot - first.slot);
      var index := (tail + (slot - first.slot)) % blocks.Length;
      var block := blocks[index];
      Cell(slot - first.slot);
      if block.exists_ && block.slot == slot {
        r := if block.dead then IsDead else Located(block);
      } else {
        r := SlotMismatch;
      }
    }

    lemma Ends()
      requires Valid()
      ensures tail < blocks.Length && head < blocks.Length && |contents| <= blocks.Length
      ensures contents == [] ==> !blocks[tail].exists_ && !blocks[head].exists_
      ensures contents != [] ==>
                && blocks[tail] == contents[0] && blocks[head] == contents[|contents| - 1]
                && contents[0].exists_ && contents[|contents| - 1].exists_
    {
      RingEnds(blocks[..], tail, head, contents);
    }

    /** The cell `k` steps after `tail`. */
    lemma Cell(k: nat)
      requires Valid() && k < blocks.Length
      ensures tail < blocks.Length && head < blocks.Length && |contents| <= blocks.Length
      ensures k < |contents| ==> blocks[Ahead(tail, k, blocks.Length)] == contents[k] && contents[k].exists_
      ensures |contents| <= k ==> !blocks[Ahead(tail, k, blocks.Length)].exists_
      ensures contents != [] ==> (Ahead(tail, k, blocks.Length) == head <==> k == |contents| - 1)
    {
      ghost var cells := blocks[..];
      assert blocks[Ahead(tail, k, blocks.Length)] == cells[Ahead(tail, k, blocks.Length)];
    }

    /**
     `get_blocks` for every request: the scan starts at the cell `start` maps to.
     Below the newest slot that cell is `start` itself (see `StartWithinRing`).
     */
    method GetBlocks(start: Slot, end: Slot, until: Until) returns (r: SlotsResult)
      requires Valid() && (until.EndSlot? ==> start <= until.slot)
      ensures r == BlocksAnswer(contents, blocks.Length, start, end, until)
      ensures r.StartRemoved? <==> contents == [] || start < contents[0].slot
      ensures r.EndOutOfLimit? <==> contents != [] && contents[0].slot <= start && contents[|contents| - 1].slot < end
    {
      hide TimeIndex, Represents, AliveIn, Truncate;
      Ends();
      var first := blocks[tail];
      if !first.exists_ || start < first.slot {
        return StartRemoved;
      }
      var last := blocks[head];
      if !last.exists_ || last.slot < end {
        return EndOutOfLimit;
      }
      var scanEnd := ScanEnd(end, until);
      AheadMod(tail, start - first.slot, blocks.Length);
      ghost var k := (start - first.slot) % blocks.Length;
      var index := (tail + (start - first.slot)) % blocks.Length;
      Cell(k);
      if blocks[index].exists_ {
        var slots := ScanFrom(index, k, scanEnd, until);
        r := Slots(slots);
      } else {
        r := Slots([]);
      }
    }

    method ScanFrom(start: nat, ghost k: nat, scanEnd: Slot, until: Until) returns (slots: seq<Slot>)
      requires Valid() && k < |contents| && start == Ahead(tail, k, blocks.Length)
      ensures slots == Truncate(AliveIn(contents, contents[k].slot, scanEnd), until)
    {
      hide TimeIndex, Represents, AliveIn;
      ghost var lo := contents[k].slot;
      Ends();
      AliveInStart(contents, k, scanEnd);
      slots := [];
      var index := start;
      ghost var i := k;
      while true
        invariant k <= i < |contents| && index == Ahead(tail, i, blocks.Length)
        invariant slots == AliveIn(contents[..i], lo, scanEnd)
        invariant until.Limit? ==> |slots| <= until.count
        decreases |contents| - i
      {
        Cell(i);
        var block := blocks[index];
        if !block.exists_ || scanEnd < block.slot {
          AliveInPrefix(contents, i, lo, scanEnd);
          break;
        }
        if until.Limit? && |slots| == until.count {
          AliveInGrows(contents, i, lo, scanEnd);
          break;
        }
        AliveInStep(contents, i, lo, scanEnd);
        if !block.dead {
          slots := slots + [block.slot];
        }
        if index == head {
          assert contents[..i + 1] == contents;
          break;
        }
        WrapMod(index + 1, blocks.Length);
        index := (index + 1) % blocks.Length;
        i := i + 1;
      }
    }
  }

  /** The answer of `get_blocks` in terms of the sequence. */
  ghost function BlocksAnswer(contents: seq<StoredBlock>, cap: nat, start: Slot, end: Slot, until: Until): SlotsResult
    requires cap > 0
  {
    if contents == [] || start < contents[0].slot then StartRemoved
    else if contents[|contents| - 1].slot < end then EndOutOfLimit
    else
      var k := (start - contents[0].slot) % cap;
      Slots(if k < |contents| then Truncate(AliveIn(contents, contents[k].slot, ScanEnd(end, until)), until) else [])
  }
}
