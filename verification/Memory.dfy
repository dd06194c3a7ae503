/**
 Fork resolution (src/storage/memory.rs).

 `StorageMemory` receives processed blocks, dead slots and confirmed slots from
 the stream and emits one verdict per slot, in slot order, by walking
 `parent_slot` links down from the first confirmed slot. `State` and the
 functions on it specify the class; the theorems about whole runs are in
 `MemoryRuns`.
 */
module Memory {
  import opened Common

  /** A block as the fork resolver sees it: its parent link and an opaque payload. */
  datatype Block = Block(parent: Slot, payload: int)

  datatype Info = Info(slot: Slot, block: Option<Block>, dead: bool, confirmed: bool)

  datatype Verdict =
    | Missed(slot: Slot)              // no usable information: fetch it over HTTP
    | Dead(slot: Slot)                // skipped or on a losing fork
    | Found(slot: Slot, block: Block) // on the confirmed chain

  datatype State = State(blocks: seq<Info>, confirmed: Slot, genNext: Slot)

  const Empty := State([], 0, 0)

  function NewInfo(slot: Slot): Info {
    Info(slot, None, false, false)
  }

  /** Fresh entries for the slots `from`, ..., `to - 1`. */
  function Fresh(from: Slot, to: Slot): (r: seq<Info>)
    requires from <= to
  {
    seq(to - from, i requires 0 <= i => NewInfo(from + i))
  }

  ghost predicate Contiguous(blocks: seq<Info>) {
    forall i :: 0 <= i < |blocks| ==> blocks[i].slot == blocks[0].slot + i
  }

  ghost predicate ParentsBelow(blocks: seq<Info>) {
    forall i :: 0 <= i < |blocks| ==> blocks[i].block.Some? ==> blocks[i].block.value.parent < blocks[i].slot
  }

  /** The last accepted confirmation is either still queued and flagged, or just emitted. */
  ghost predicate ConfirmedPlaced(s: State) {
    && (forall i :: 0 <= i < |s.blocks| && s.blocks[i].confirmed ==> s.blocks[i].slot <= s.confirmed)
    && (s.confirmed > 0 ==> 0 < s.genNext <= s.confirmed + 1)
    && (s.confirmed > 0 && s.genNext <= s.confirmed ==>
          Holds(s, s.confirmed) && At(s, s.confirmed).confirmed)
  }

  ghost predicate Shaped(s: State) {
    Contiguous(s.blocks) && ParentsBelow(s.blocks)
  }

  ghost predicate Inv(s: State) {
    && Shaped(s)
    && (s.blocks != [] ==> 0 < s.genNext <= s.blocks[0].slot)
    && ConfirmedPlaced(s)
  }

  /** Slot `slot` lies in the deque. */
  predicate Holds(s: State, slot: Slot) {
    s.blocks != [] && s.blocks[0].slot <= slot < s.blocks[0].slot + |s.blocks|
  }

  function At(s: State, slot: Slot): (r: Info)
    requires Holds(s, slot)
  {
    s.blocks[slot - s.blocks[0].slot]
  }

  /** The block recorded for `slot`, if the deque has one. */
  function BlockAt(s: State, slot: Slot): (r: Option<Block>) {
    if Holds(s, slot) then At(s, slot).block else None
  }

  // ----- events -----

  /** `add_slot`: start the numbering, then make the deque cover `slot` unless it was reported. */
  function AddSlot(s: State, slot: Slot): (r: State)
  {
    var gen := if s.genNext == 0 then slot else s.genNext;
    if slot < gen then s.(genNext := gen)
    else if s.blocks == [] then s.(blocks := [NewInfo(slot)], genNext := gen)
    else
      var first := s.blocks[0].slot;
      var last := s.blocks[|s.blocks| - 1].slot;
      if slot < first then s.(blocks := Fresh(slot, first) + s.blocks, genNext := gen)
      else if last < slot then s.(blocks := s.blocks + Fresh(last + 1, slot + 1), genNext := gen)
      else s.(genNext := gen)
  }

  /** Replace the entry of `slot`; slots that the deque does not hold are dropped. */
  function Put(s: State, slot: Slot, info: Info): (r: State) {
    if Holds(s, slot) then s.(blocks := s.blocks[slot - s.blocks[0].slot := info]) else s
  }

  /** What the stream says about a slot. */
  datatype Mark = IsBlock(block: Block) | IsDead | IsConfirmed

  function Marked(info: Info, mark: Mark): Info {
    match mark
    case IsBlock(block) => info.(block := Some(block))
    case IsDead => info.(dead := true)
    case IsConfirmed => info.(confirmed := true)
  }

  /** `add_processed`, `set_dead` and `set_confirmed`: mark the entry unless the slot was reported. */
  function Record(s: State, slot: Slot, mark: Mark): (r: State) {
    var a := AddSlot(s, slot);
    if Holds(a, slot) then
      Put(a, slot, Marked(At(a, slot), mark)).(confirmed := if mark.IsConfirmed? then slot else a.confirmed)
    else a
  }

  /** The assertions of `set_dead` and `set_confirmed`: what the stream must respect. */
  predicate Accepts(s: State, slot: Slot, mark: Mark) {
    var a := AddSlot(s, slot);
    match mark
    case IsBlock(_) => true
    case IsDead => Holds(a, slot) ==> !At(a, slot).confirmed
    case IsConfirmed => s.confirmed < slot && (Holds(a, slot) ==> !At(a, slot).dead)
  }

  /** What the network guarantees: real slots, parents below their children. */
  predicate Legal(slot: Slot, mark: Mark) {
    slot > 0 && (mark.IsBlock? ==> mark.block.parent < slot)
  }

  // ----- popping -----

  /** The lowest confirmed slot of the deque. */
  function FirstConfirmed(blocks: seq<Info>): (r: Option<Slot>) {
    if blocks == [] then None
    else if blocks[0].confirmed then Some(blocks[0].slot)
    else FirstConfirmed(blocks[1..])
  }

  lemma {:induction false} FirstConfirmedScan(blocks: seq<Info>)
    ensures FirstConfirmed(blocks).None? ==> forall i :: 0 <= i < |blocks| ==> !blocks[i].confirmed
    ensures FirstConfirmed(blocks).Some? ==>
              exists k :: 0 <= k < |blocks| && blocks[k].confirmed && blocks[k].slot == FirstConfirmed(blocks).value
                          && forall i :: 0 <= i < k ==> !blocks[i].confirmed
  {
    if blocks != [] && !blocks[0].confirmed {
      var rest := blocks[1..];
      FirstConfirmedScan(rest);
      assert forall i :: 0 < i < |blocks| ==> blocks[i] == rest[i - 1];
      if FirstConfirmed(rest).Some? {
        var k :| 0 <= k < |rest| && rest[k].confirmed && rest[k].slot == FirstConfirmed(rest).value
                 && forall i :: 0 <= i < k ==> !rest[i].confirmed;
        assert blocks[k + 1].confirmed && blocks[k + 1].slot == FirstConfirmed(blocks).value;
      }
    }
  }

  /** The first confirmed slot is the least slot of the deque that is flagged. */
  lemma FirstConfirmedIs(s: State, c: Slot)
    requires Contiguous(s.blocks)
    ensures FirstConfirmed(s.blocks) == Some(c) <==>
              && Holds(s, c) && At(s, c).confirmed
              && forall t :: Holds(s, t) && At(s, t).confirmed ==> c <= t
  {
    FirstConfirmedScan(s.blocks);
    if FirstConfirmed(s.blocks).Some? {
      var d := FirstConfirmed(s.blocks).value;
      var k :| 0 <= k < |s.blocks| && s.blocks[k].confirmed && s.blocks[k].slot == d
               && forall i :: 0 <= i < k ==> !s.blocks[i].confirmed;
      assert Holds(s, d) && At(s, d).confirmed;
      forall t: Slot | Holds(s, t) && At(s, t).confirmed ensures d <= t {
        assert s.blocks[t - s.blocks[0].slot].confirmed;
      }
    } else if Holds(s, c) {
      assert !s.blocks[c - s.blocks[0].slot].confirmed;
    }
  }

  lemma SomeConfirmed(s: State)
    requires Inv(s)
    ensures FirstConfirmed(s.blocks).Some? <==> s.confirmed > 0 && s.genNext <= s.confirmed
    ensures FirstConfirmed(s.blocks).Some? ==>
              var c := FirstConfirmed(s.blocks).value;
              Holds(s, c) && At(s, c).confirmed && c <= s.confirmed
  {
    if FirstConfirmed(s.blocks).Some? {
      FirstConfirmedIs(s, FirstConfirmed(s.blocks).value);
    }
    if s.confirmed > 0 && s.genNext <= s.confirmed {
      FirstConfirmedScan(s.blocks);
      assert s.blocks[s.confirmed - s.blocks[0].slot].confirmed;
    }
  }

  /** Follow parent links from `slot` while they stay inside the deque. */
  function Walk(s: State, slot: Slot): (r: Slot)
    requires Shaped(s) && Holds(s, slot)
    ensures Holds(s, r) && r <= slot
    ensures BlockAt(s, r).Some? ==> BlockAt(s, r).value.parent < s.blocks[0].slot
  {
    match BlockAt(s, slot)
    case Some(b) => if s.blocks[0].slot <= b.parent then Walk(s, b.parent) else slot
    case None => slot
  }

  /** Entries below index `k` lose: their block is dropped and they are marked dead. */
  function Bury(blocks: seq<Info>, k: nat): (r: seq<Info>)
    requires k <= |blocks|
  {
    seq(|blocks|, i requires 0 <= i < |blocks| =>
      if i < k then blocks[i].(block := None, dead := true) else blocks[i])
  }

  function MissedOrDead(slot: Slot, dead: bool): Verdict {
    if dead then Dead(slot) else Missed(slot)
  }

  function Pop(s: State): (r: (State, Option<Verdict>))
    requires Inv(s)
  {
    SomeConfirmed(s);
    if s.confirmed == 0 || s.genNext == 0 || s.blocks == [] || FirstConfirmed(s.blocks).None? then (s, None)
    else
      var (t, v) := Emit(s, Walk(s, FirstConfirmed(s.blocks).value));
      (t, Some(v))
  }

  /** The verdict for `genNext` when the walk from the first confirmed slot ended at `bottom`. */
  function Emit(s: State, bottom: Slot): (r: (State, Verdict))
    requires Holds(s, bottom)
  {
    var first := s.blocks[0].slot;
    var next := s.(genNext := s.genNext + 1);
    match BlockAt(s, bottom)
    case Some(b) =>
      if s.genNext <= b.parent then (next, Missed(s.genNext))
      else if s.genNext < first then (next, Dead(s.genNext))
      else
        var blocks := Bury(s.blocks, bottom - first);
        (next.(blocks := blocks[1..]),
         match blocks[0].block
         case Some(block) => Found(blocks[0].slot, block)
         case None => MissedOrDead(blocks[0].slot, blocks[0].dead))
    case None =>
      if s.genNext < first then (next, Missed(s.genNext))
      else (next.(blocks := s.blocks[1..]), MissedOrDead(s.blocks[0].slot, s.blocks[0].dead))
  }

  // ----- what every event keeps -----

  /** `b` holds everything `a` does, and new entries elsewhere. */
  ghost predicate Extends(a: State, b: State) {
    && (forall t :: Holds(a, t) ==> Holds(b, t) && At(b, t) == At(a, t))
    && (forall t :: Holds(b, t) && !Holds(a, t) ==> At(b, t) == NewInfo(t))
    && a.confirmed == b.confirmed
  }

  /** Padding a non-empty deque with fresh entries, `pre` of them in front. */
  lemma PadKeeps(s: State, blocks: seq<Info>, pre: nat)
    requires Inv(s) && s.blocks != [] && s.genNext + pre <= s.blocks[0].slot
    requires pre + |s.blocks| <= |blocks|
    requires forall i :: 0 <= i < |blocks| ==>
                           blocks[i] == if pre <= i < pre + |s.blocks| then s.blocks[i - pre]
                                        else NewInfo(s.blocks[0].slot - pre + i)
    ensures Inv(s.(blocks := blocks)) && Extends(s, s.(blocks := blocks))
  {
    var b := s.(blocks := blocks);
    assert blocks[0].slot == s.blocks[0].slot - pre;
    forall t: Slot | Holds(s, t) ensures Holds(b, t) && At(b, t) == At(s, t) {
      assert blocks[t - blocks[0].slot] == s.blocks[t - s.blocks[0].slot];
    }
  }

  lemma AddSlotKeeps(s: State, slot: Slot)
    requires Inv(s) && slot > 0
    ensures Inv(AddSlot(s, slot)) && Extends(s, AddSlot(s, slot))
    ensures AddSlot(s, slot).genNext == (if s.genNext == 0 then slot else s.genNext)
    ensures Holds(AddSlot(s, slot), slot) <==> s.genNext == 0 || s.genNext <= slot
  {
    var a := AddSlot(s, slot);
    if s.blocks != [] && s.genNext <= slot {
      var first, last := s.blocks[0].slot, s.blocks[|s.blocks| - 1].slot;
      assert last == first + |s.blocks| - 1;
      if slot < first {
        PadKeeps(s, a.blocks, first - slot);
      } else if last < slot {
        PadKeeps(s, a.blocks, 0);
      }
    }
  }

  lemma RecordKeeps(s: State, slot: Slot, mark: Mark)
    requires Inv(s) && Legal(slot, mark) && Accepts(s, slot, mark)
    ensures Inv(Record(s, slot, mark))
  {
    AddSlotKeeps(s, slot);
    var a := AddSlot(s, slot);
    if Holds(a, slot) {
      PutKeeps(a, slot, mark);
    }
  }

  lemma PutKeeps(a: State, slot: Slot, mark: Mark)
    requires Inv(a) && Holds(a, slot) && Legal(slot, mark)
    requires mark.IsConfirmed? ==> a.confirmed < slot
    ensures Inv(Put(a, slot, Marked(At(a, slot), mark)).(confirmed := if mark.IsConfirmed? then slot else a.confirmed))
  {
    var index := slot - a.blocks[0].slot;
    var p := Put(a, slot, Marked(At(a, slot), mark)).(confirmed := if mark.IsConfirmed? then slot else a.confirmed);
    assert forall i :: 0 <= i < |p.blocks| ==> p.blocks[i] == if i == index then Marked(a.blocks[i], mark) else a.blocks[i];
    assert p.blocks[0].slot == a.blocks[0].slot;
  }

  /** Emitting the front entry keeps the invariant, whatever happened to blocks and dead marks. */
  lemma DropFrontKeeps(s: State, blocks: seq<Info>)
    requires Inv(s) && s.blocks != [] && s.genNext == s.blocks[0].slot
    requires s.genNext <= s.confirmed
    requires |blocks| == |s.blocks| && ParentsBelow(blocks)
    requires forall i :: 0 <= i < |blocks| ==>
                           blocks[i].slot == s.blocks[i].slot && blocks[i].confirmed == s.blocks[i].confirmed
    ensures Inv(State(blocks[1..], s.confirmed, s.genNext + 1))
  {
    var t := State(blocks[1..], s.confirmed, s.genNext + 1);
    assert forall i :: 0 <= i < |t.blocks| ==> t.blocks[i] == blocks[i + 1];
    if t.genNext <= t.confirmed {
      assert At(s, s.confirmed) == s.blocks[s.confirmed - s.genNext];
      assert t.blocks[s.confirmed - t.genNext].confirmed;
    }
  }

  lemma SkipKeeps(s: State)
    requires Inv(s) && s.blocks != [] && s.genNext < s.blocks[0].slot && s.genNext <= s.confirmed
    ensures Inv(s.(genNext := s.genNext + 1))
  {
    assert At(s, s.confirmed) == At(s.(genNext := s.genNext + 1), s.confirmed);
  }

  lemma EmitKeeps(s: State, bottom: Slot)
    requires Inv(s) && Holds(s, bottom) && s.genNext <= s.confirmed
    requires BlockAt(s, bottom).Some? ==> BlockAt(s, bottom).value.parent < s.blocks[0].slot
    ensures var (t, v) := Emit(s, bottom);
      && Inv(t)
      && t.confirmed == s.confirmed
      && v.slot == s.genNext && t.genNext == s.genNext + 1
  {
    if s.genNext < s.blocks[0].slot {
      SkipKeeps(s);
    } else if BlockAt(s, bottom).Some? {
      DropFrontKeeps(s, Bury(s.blocks, bottom - s.genNext));
    } else {
      DropFrontKeeps(s, s.blocks);
    }
  }

  /** A pop answers exactly while a confirmed slot is waiting, and consumes slot `genNext`. */
  lemma PopKeeps(s: State)
    requires Inv(s)
    ensures var (t, v) := Pop(s);
      && Inv(t)
      && t.confirmed == s.confirmed
      && (v.Some? <==> s.confirmed > 0 && s.genNext <= s.confirmed)
      && (v.Some? ==> v.value.slot == s.genNext && t.genNext == s.genNext + 1)
      && (v.None? ==> t == s)
  {
    SomeConfirmed(s);
    if FirstConfirmed(s.blocks).Some? {
      EmitKeeps(s, Walk(s, FirstConfirmed(s.blocks).value));
    }
  }

  // ----- the program -----

  class StorageMemory {
    var blocks: seq<Info>
    var confirmed: Slot
    var genNext: Slot

    ghost function Model(): State
      reads this
    {
      State(blocks, confirmed, genNext)
    }

    constructor ()
      ensures Model() == Empty
      ensures Inv(Model())
    {
      blocks, confirmed, genNext := [], 0, 0;
    }

    method PadFront(slot: Slot)
      requires blocks != [] && slot <= blocks[0].slot
      modifies this`blocks
      ensures blocks == Fresh(slot, old(blocks)[0].slot) + old(blocks)
    {
      var next := blocks[0].slot;
      while slot < next
        invariant slot <= next <= old(blocks)[0].slot
        invariant blocks == Fresh(next, old(blocks)[0].slot) + old(blocks)
      {
        next := next - 1;
        blocks := [NewInfo(next)] + blocks;
      }
    }

    method PadBack(slot: Slot)
      requires blocks != [] && blocks[|blocks| - 1].slot <= slot
      modifies this`blocks
      ensures blocks == old(blocks) + Fresh(old(blocks)[|old(blocks)| - 1].slot + 1, slot + 1)
    {
      var from := blocks[|blocks| - 1].slot + 1;
      for next := from to slot + 1
        invariant blocks == old(blocks) + Fresh(from, next)
      {
        blocks := blocks + [NewInfo(next)];
      }
    }

    /** `add_slot`: the index of the entry of `slot`, or None when the slot was already reported. */
    method EnsureSlot(slot: Slot) returns (index: Option<nat>)
      requires Inv(Model()) && slot > 0
      modifies this
      ensures Model() == AddSlot(old(Model()), slot)
      ensures index.Some? <==> Holds(Model(), slot)
      ensures index.Some? ==> index.value == slot - blocks[0].slot
    {
      assert Holds(AddSlot(Model(), slot), slot) <==> genNext == 0 || genNext <= slot by {
        AddSlotKeeps(Model(), slot);
      }
      if genNext == 0 {
        genNext := slot;
      }
      if slot < genNext {
        return None;
      }
      if |blocks| == 0 {
        blocks := [NewInfo(slot)];
      } else if slot < blocks[0].slot {
        PadFront(slot);
      } else if blocks[|blocks| - 1].slot < slot {
        PadBack(slot);
      }
      index := Some(slot - blocks[0].slot);
    }

    method AddProcessed(slot: Slot, block: Block)
      requires Inv(Model()) && Legal(slot, IsBlock(block))
      modifies this
      ensures Model() == Record(old(Model()), slot, IsBlock(block)) && Inv(Model())
    {
      RecordKeeps(Model(), slot, IsBlock(block));
      var index := EnsureSlot(slot);
      if index.Some? {
        blocks := blocks[index.value := blocks[index.value].(block := Some(block))];
      }
    }

    method SetDead(slot: Slot)
      requires Inv(Model()) && slot > 0 && Accepts(Model(), slot, IsDead)
      modifies this
      ensures Model() == Record(old(Model()), slot, IsDead) && Inv(Model())
    {
      RecordKeeps(Model(), slot, IsDead);
      var index := EnsureSlot(slot);
      if index.Some? {
        assert !blocks[index.value].confirmed;
        blocks := blocks[index.value := blocks[index.value].(dead := true)];
      }
    }

    method SetConfirmed(slot: Slot)
      requires Inv(Model()) && slot > 0 && Accepts(Model(), slot, IsConfirmed)
      modifies this
      ensures Model() == Record(old(Model()), slot, IsConfirmed) && Inv(Model())
    {
      RecordKeeps(Model(), slot, IsConfirmed);
      var index := EnsureSlot(slot);
      if index.Some? {
        assert !blocks[index.value].dead;
        blocks := blocks[index.value := blocks[index.value].(confirmed := true)];
        confirmed := slot;
      }
    }

    method PopConfirmed() returns (v: Option<Verdict>)
      requires Inv(Model())
      modifies this
      ensures (Model(), v) == Pop(old(Model())) && Inv(Model())
    {
      hide Emit, Walk, FirstConfirmed, ParentsBelow, ConfirmedPlaced, BlockAt;
      PopKeeps(Model());
      if confirmed == 0 || genNext == 0 || |blocks| == 0 {
        return None;
      }
      var found := FindConfirmed();
      if found.None? {
        return None;
      }
      var index := WalkDown(found.value);
      ghost var popped := Emit(Model(), blocks[index].slot);
      assert Pop(Model()) == (popped.0, Some(popped.1));
      var verdict := EmitAt(index);
      v := Some(verdict);
    }

    /** The tail of `pop_confirmed` once the walk stopped at `index`. */
    method EmitAt(index: nat) returns (v: Verdict)
      requires Contiguous(blocks) && index < |blocks| && genNext <= blocks[0].slot
      requires blocks[index].block.Some? ==> blocks[index].block.value.parent < blocks[0].slot
      modifies this
      ensures (Model(), v) == Emit(old(Model()), old(blocks[index].slot))
    {
      var first := blocks[0].slot;
      assert BlockAt(Model(), blocks[index].slot) == blocks[index].block;
      match blocks[index].block {
        case Some(block) =>
          if genNext <= block.parent {
            v := Missed(genNext);
          } else if genNext < first {
            v := Dead(genNext);
          } else if genNext == first {
            v := TakeFront(index);
          } else {
            assert false; // the program panics here
          }
        case None =>
          if genNext < first {
            v := Missed(genNext);
          } else if genNext == first {
            v := MissedOrDead(blocks[0].slot, blocks[0].dead);
            blocks := blocks[1..];
          } else {
            assert false; // the program panics here
          }
      }
      genNext := genNext + 1;
    }

    method FindConfirmed() returns (index: Option<nat>)
      ensures index.Some? <==> FirstConfirmed(blocks).Some?
      ensures index.Some? ==> index.value < |blocks| && blocks[index.value].slot == FirstConfirmed(blocks).value
    {
      for i := 0 to |blocks|
        invariant FirstConfirmed(blocks) == FirstConfirmed(blocks[i..])
      {
        if blocks[i].confirmed {
          return Some(i);
        }
      }
      return None;
    }

    /** Follow parent links inside the deque; the index decreases, so the walk ends. */
    method WalkDown(start: nat) returns (index: nat)
      requires Inv(Model()) && start < |blocks|
      ensures index < |blocks| && blocks[index].slot == Walk(Model(), blocks[start].slot)
      ensures blocks[index].block.Some? ==> blocks[index].block.value.parent < blocks[0].slot
    {
      var first := blocks[0].slot;
      index := start;
      while blocks[index].block.Some? && first <= blocks[index].block.value.parent
        invariant index < |blocks|
        invariant Walk(Model(), blocks[index].slot) == Walk(Model(), blocks[start].slot)
        decreases index
      {
        assert BlockAt(Model(), blocks[index].slot) == blocks[index].block;
        index := blocks[index].block.value.parent - first;
      }
      assert BlockAt(Model(), blocks[index].slot) == blocks[index].block;
    }

    /** Mark everything below `index` dead, then emit the front entry. */
    method TakeFront(index: nat) returns (v: Verdict)
      requires index < |blocks|
      modifies this`blocks
      ensures var buried := Bury(old(blocks), index);
        && blocks == buried[1..]
        && v == (match buried[0].block
                 case Some(block) => Found(buried[0].slot, block)
                 case None => MissedOrDead(buried[0].slot, buried[0].dead))
    {
      for i := 0 to index
        invariant |blocks| == |old(blocks)|
        invariant blocks == Bury(old(blocks), i)
      {
        blocks := blocks[i := blocks[i].(block := None, dead := true)];
      }
      var front := blocks[0];
      blocks := blocks[1..];
      v := match front.block
           case Some(block) => Found(front.slot, block)
           case None => MissedOrDead(front.slot, front.dead);
    }
  }
}
