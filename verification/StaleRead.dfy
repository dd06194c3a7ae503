/**
 The one way the validated read can serve wrong bytes: a slot that leaves the
 back of the ring and is then backfilled while a reader still holds its old
 location. One more back push lowers `first_available` below the slot, and the
 re-check passes. The run shown pops the slot without a front push, as the
 program does at startup when slots are to be dropped from the back.
 */
module StaleRead {
  import opened Common
  import opened Blocks
  import opened ValidatedRead
  import Files

  lemma {:induction false} RunConcat(s: State, a: seq<Step>, b: seq<Step>)
    requires Inv(s) && Run(s, a) && Inv(After(s, a)) && Run(After(s, a), b)
    ensures Run(s, a + b) && After(s, a + b) == After(After(s, a), b)
    decreases |a|
  {
    hide Inv, Do, Enabled;
    if a == [] {
      assert a + b == b;
    } else {
      StepKeeps(s, a[0]);
      assert (a + b)[0] == a[0] && (a + b)[1..] == a[1..] + b;
      RunConcat(Do(s, a[0]), a[1..], b);
    }
  }

  /** The state after a block of one byte has been written and pushed. */
  ghost function WithOneByte(s: State, side: Files.Side, b: StoredBlock, v: Byte): State
    requires b.storageId in s.files && b.offset < |s.files[b.storageId].data|
    requires Files.Admitted(s.files[b.storageId].geo, side, 1)
  {
    var f := s.files[b.storageId];
    Push(s.(files := s.files[b.storageId := File(Files.AfterWrite(f.geo, side, 1), f.data[b.offset := v])],
            bytes := s.bytes[b.slot := [v]]), side, b, true)
  }

  lemma StoreOneByte(s: State, side: Files.Side, b: StoredBlock, v: Byte) returns (steps: seq<Step>)
    requires Inv(s) && CanBegin(s, side, b, [v]) && b.offset < |s.files[b.storageId].data|
    ensures Run(s, steps) && After(s, steps) == WithOneByte(s, side, b, v) && Inv(After(s, steps))
  {
    hide Inv;
    var begin, write, finish := Begin(side, b, [v]), WriteByte(0), Finish(true);
    StepKeeps(s, begin);
    var s1 := Do(s, begin);
    StepKeeps(s1, write);
    var s2 := Do(s1, write);
    assert s2.phase.written == {0};
    StepKeeps(s2, finish);
    var s3 := Do(s2, finish);
    var f := s.files[b.storageId];
    assert s2.files == s.files[b.storageId := File(f.geo, f.data[b.offset := v])];
    assert s3.files == s.files[b.storageId := File(Files.AfterWrite(f.geo, side, 1), f.data[b.offset := v])];
    assert s3 == WithOneByte(s, side, b, v);
    OneStep(s2, finish);
    OneStep(s1, write);
    OneStep(s, begin);
    RunConcat(s1, [write], [finish]);
    RunConcat(s, [begin], [write] + [finish]);
    steps := [begin] + ([write] + [finish]);
  }

  lemma OneStep(s: State, step: Step)
    requires Inv(s) && Enabled(s, step)
    ensures Run(s, [step]) && After(s, [step]) == Do(s, step) && Inv(After(s, [step]))
  {
    hide Inv, Do, Enabled;
    StepKeeps(s, step);
    assert [step][1..] == [];
  }

  lemma Then(s: State, steps: seq<Step>, step: Step) returns (more: seq<Step>)
    requires Inv(s) && Run(s, steps) && Inv(After(s, steps)) && Enabled(After(s, steps), step)
    ensures Run(s, more) && After(s, more) == Do(After(s, steps), step) && Inv(After(s, more))
  {
    hide Inv, Do, Enabled;
    OneStep(After(s, steps), step);
    RunConcat(s, steps, [step]);
    more := steps + [step];
  }

  lemma ThenStore(s: State, steps: seq<Step>, side: Files.Side, b: StoredBlock, v: Byte) returns (more: seq<Step>)
    requires Inv(s) && Run(s, steps) && Inv(After(s, steps)) && CanBegin(After(s, steps), side, b, [v])
    requires b.offset < |After(s, steps).files[b.storageId].data|
    ensures Run(s, more) && After(s, more) == WithOneByte(After(s, steps), side, b, v) && Inv(After(s, more))
  {
    hide Inv, CanBegin;
    var stored := StoreOneByte(After(s, steps), side, b, v);
    RunConcat(s, steps, stored);
    more := steps + stored;
  }

  // ----- the run -----

  function Block(slot: Slot, storageId: nat, offset: nat): StoredBlock {
    StoredBlock(true, false, slot, None, None, storageId, offset, 1)
  }

  ghost predicate InFiles(t: State, first: Files.Geometry, second: Files.Geometry) {
    && t.phase == Idle && t.files.Keys == {0, 1}
    && |t.files[0].data| == 2 && |t.files[1].data| == 3 && t.files[0].geo == first && t.files[1].geo == second
  }

  lemma Start()
    ensures var s := Fresh(map[0 := 2, 1 := 3]);
      && Inv(s) && Run(s, []) && After(s, []) == s
      && InFiles(s, Files.Geometry(2, 0, 0), Files.Geometry(3, 0, 0))
  {
    FreshIsInv(map[0 := 2, 1 := 3]);
    NoSteps(Fresh(map[0 := 2, 1 := 3]));
  }

  /** Slot 6 goes to file 0. */
  lemma OneStored() returns (steps: seq<Step>)
    ensures var s := Fresh(map[0 := 2, 1 := 3]);
      && Inv(s) && Run(s, steps) && Inv(After(s, steps))
      && var t := After(s, steps);
      && InFiles(t, Files.Geometry(2, 0, 1), Files.Geometry(3, 0, 0))
      && t.ring == [Block(6, 0, 0)] && 6 in t.bytes && t.bytes[6] == [1] && t.next == 7
      && t.initial == [] && t.log == [PushFront(Block(6, 0, 0))] && t.applied == 0 && t.request == Waiting
  {
    hide Inv, Run, After;
    Start();
    steps := ThenStore(Fresh(map[0 := 2, 1 := 3]), [], Files.Front, Block(6, 0, 0), 1);
  }

  /** Slot 7 goes to file 1. */
  lemma TwoStored() returns (steps: seq<Step>)
    ensures var s := Fresh(map[0 := 2, 1 := 3]);
      && Inv(s) && Run(s, steps) && Inv(After(s, steps))
      && var t := After(s, steps);
      && InFiles(t, Files.Geometry(2, 0, 1), Files.Geometry(3, 0, 1))
      && t.ring == [Block(6, 0, 0), Block(7, 1, 0)] && 6 in t.bytes && t.bytes[6] == [1]
      && t.initial == [] && t.log == [PushFront(Block(6, 0, 0)), PushFront(Block(7, 1, 0))]
      && t.applied == 0 && t.request == Waiting
  {
    hide Inv, Run, After, Fresh;
    steps := OneStored();
    steps := ThenStore(Fresh(map[0 := 2, 1 := 3]), steps, Files.Front, Block(7, 1, 0), 2);
  }

  /** A reader that has seen both looks up slot 6. */
  lemma LookedUp() returns (steps: seq<Step>)
    ensures var s := Fresh(map[0 := 2, 1 := 3]);
      && Inv(s) && Run(s, steps) && Inv(After(s, steps))
      && var t := After(s, steps);
      && InFiles(t, Files.Geometry(2, 0, 1), Files.Geometry(3, 0, 1))
      && t.ring == [Block(6, 0, 0), Block(7, 1, 0)] && 6 in t.bytes && t.bytes[6] == [1]
      && |t.log| == 2 && t.request == Reading(6, Block(6, 0, 0), 2, map[])
  {
    hide Inv, Run, After, InFiles, Fresh;
    var s := Fresh(map[0 := 2, 1 := 3]);
    steps := TwoStored();
    var before := After(s, steps);
    steps := Then(s, steps, ApplyMessage);
    steps := Then(s, steps, ApplyMessage);
    ReplicaOfTwo(After(s, steps), Block(6, 0, 0), Block(7, 1, 0));
    steps := Then(s, steps, LookUp(6));
    SameFiles(before, After(s, steps), Files.Geometry(2, 0, 1), Files.Geometry(3, 0, 1));
  }

  lemma SameFiles(s: State, t: State, first: Files.Geometry, second: Files.Geometry)
    requires t.files == s.files && t.phase == s.phase
    ensures InFiles(t, first, second) <==> InFiles(s, first, second)
  {
  }

  lemma NoSteps(s: State)
    requires Inv(s)
    ensures Run(s, []) && After(s, []) == s
  {
  }

  lemma ReplicaOfTwo(s: State, a: StoredBlock, b: StoredBlock)
    requires s.initial == [] && s.log == [PushFront(a), PushFront(b)] && s.applied == 2
    ensures Replica(s) == [a, b]
  {
    assert s.log[..2] == s.log && s.log[..1] == [PushFront(a)] && s.log[..1][..0] == [];
    assert ApplyAll([], s.log[..1]) == [a];
    assert ApplyAll([], s.log) == Apply(ApplyAll([], s.log[..1]), s.log[1]);
  }

  /**
   Slot 6 is popped from the back, as at startup when slots are to be dropped
   there; its space is released, and backfilling stores it again in file 1.
   */
  lemma StoredAgain() returns (steps: seq<Step>)
    ensures var s := Fresh(map[0 := 2, 1 := 3]);
      && Inv(s) && Run(s, steps) && Inv(After(s, steps))
      && var t := After(s, steps);
      && InFiles(t, Files.Geometry(2, 1, 1), Files.Geometry(3, 2, 1))
      && t.ring == [Block(6, 1, 2), Block(7, 1, 0)] && 6 in t.bytes && t.bytes[6] == [1]
      && t.request == Reading(6, Block(6, 0, 0), 2, map[])
      && |t.log| == 4 && t.log[3] == PushBack(Block(6, 1, 2))
  {
    hide Inv, Run, After, Fresh;
    var s := Fresh(map[0 := 2, 1 := 3]);
    steps := LookedUp();
    steps := Then(s, steps, Evict);
    assert After(s, steps).ring == [Block(7, 1, 0)];
    steps := Then(s, steps, Free);
    assert After(s, steps).files[0].geo == Files.Geometry(2, 1, 1);
    steps := ThenStore(s, steps, Files.Back, Block(6, 1, 2), 1);
  }

  /** Slot 5 is stored in slot 6's old place; the reader serves slot 5's byte for slot 6. */
  lemma StaleReadIsServed() returns (steps: seq<Step>)
    ensures var s := Fresh(map[0 := 2, 1 := 3]);
      && Inv(s) && Run(s, steps)
      && var t := After(s, steps);
      && Accepted(t) && ReadAll(t.request) && t.request.slot == 6 && !Unrepeated(t)
      && 6 in t.bytes && t.bytes[6] == [1] && 0 in t.request.got && t.request.got[0] == 3
  {
    hide Inv, Run, After, Fresh;
    var s := Fresh(map[0 := 2, 1 := 3]);
    steps := StoredAgain();
    steps := ThenStore(s, steps, Files.Back, Block(5, 0, 0), 3);
    assert After(s, steps).log[3] == PushBack(Block(6, 1, 2));
    steps := Then(s, steps, ReadByte(0));
    assert Stores(After(s, steps).log[3], 6);
  }
}
