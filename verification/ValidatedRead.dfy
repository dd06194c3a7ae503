/**
 The validated read (src/rpc/api_jsonrpc.rs, src/storage/rocksdb.rs,
 src/storage/blocks.rs, src/storage/files.rs).

 A reader looks a block up in its own, possibly lagging, copy of the ring and
 reads the file while the writer keeps writing, evicting and reusing space. It
 then accepts the bytes only if the slot is still above `first_available`. This
 module lets the writer and the reader interleave byte by byte and shows that
 accepted bytes are exactly the block that was stored for the slot.
 */
module ValidatedRead {
  import opened Common
  import opened Blocks
  import Files

  type Bytes = seq<Byte>

  datatype File = File(geo: Files.Geometry, data: Bytes)

  /** What the writer is in the middle of. */
  datatype Phase =
    | Idle
    | Freeing(block: StoredBlock)                                      // evicted, file space not yet released
    | Writing(side: Files.Side, block: StoredBlock, written: set<nat>) // some bytes already in the file

  /** `seen` is how much of the log the reader had applied when it looked the slot up. */
  datatype Request = Waiting | Reading(slot: Slot, block: StoredBlock, seen: nat, got: map<nat, Byte>)

  datatype State = State(
    files: map<nat, File>,
    ring: seq<StoredBlock>,
    first: Option<Slot>,                 // published first_available; None is u64::MAX
    phase: Phase,
    initial: seq<StoredBlock>,           // the ring the reader started from
    log: seq<Message>,                   // broadcast messages so far
    stored: map<Slot, StoredBlock>,      // the latest record of every slot ever stored
    bytes: map<Slot, Bytes>,             // the latest protobuf of every slot ever written
    next: Slot,                          // slots stored so far lie below
    applied: nat,                        // messages the reader has applied
    request: Request)

  datatype Step =
    | Evict
    | Free
    | Begin(side: Files.Side, record: StoredBlock, payload: Bytes)
    | WriteByte(at: nat)
    | Finish(publish: bool)
    | PushDead(deadSide: Files.Side, deadSlot: Slot, publishDead: bool)
    | ApplyMessage
    | LookUp(wanted: Slot)
    | ReadByte(from: nat)
    | Answer

  // ----- live chunks -----

  predicate OnDisk(b: StoredBlock, id: nat) {
    !b.dead && b.size > 0 && b.storageId == id
  }

  ghost function BytesOf(bytes: map<Slot, Bytes>, slot: Slot): Bytes {
    if slot in bytes then bytes[slot] else []
  }

  ghost function ChunkOf(bytes: map<Slot, Bytes>, b: StoredBlock): Files.Chunk {
    Files.Chunk(b.offset, BytesOf(bytes, b.slot))
  }

  /** The chunks of one file, oldest first. */
  ghost function LiveOf(blocks: seq<StoredBlock>, bytes: map<Slot, Bytes>, id: nat): seq<Files.Chunk> {
    if blocks == [] then []
    else
      var n := |blocks| - 1;
      LiveOf(blocks[..n], bytes, id) + if OnDisk(blocks[n], id) then [ChunkOf(bytes, blocks[n])] else []
  }

  lemma LiveSnoc(blocks: seq<StoredBlock>, bytes: map<Slot, Bytes>, id: nat, b: StoredBlock)
    ensures LiveOf(blocks + [b], bytes, id)
            == LiveOf(blocks, bytes, id) + if OnDisk(b, id) then [ChunkOf(bytes, b)] else []
  {
    assert (blocks + [b])[..|blocks|] == blocks;
  }

  lemma {:induction false} LiveCons(blocks: seq<StoredBlock>, bytes: map<Slot, Bytes>, id: nat, b: StoredBlock)
    ensures LiveOf([b] + blocks, bytes, id)
            == (if OnDisk(b, id) then [ChunkOf(bytes, b)] else []) + LiveOf(blocks, bytes, id)
  {
    var own := if OnDisk(b, id) then [ChunkOf(bytes, b)] else [];
    if blocks == [] {
      assert [b] + blocks == [] + [b];
      LiveSnoc([], bytes, id, b);
      assert own + [] == own && [] + own == own;
    } else {
      var n := |blocks| - 1;
      LiveCons(blocks[..n], bytes, id, b);
      assert [b] + blocks == ([b] + blocks[..n]) + [blocks[n]];
      LiveSnoc([b] + blocks[..n], bytes, id, blocks[n]);
      assert blocks == blocks[..n] + [blocks[n]];
      LiveSnoc(blocks[..n], bytes, id, blocks[n]);
    }
  }

  /** Only the bytes of the blocks themselves matter. */
  lemma {:induction false} LiveSame(blocks: seq<StoredBlock>, bytes: map<Slot, Bytes>, bytes': map<Slot, Bytes>, id: nat)
    requires forall i :: 0 <= i < |blocks| ==> BytesOf(bytes, blocks[i].slot) == BytesOf(bytes', blocks[i].slot)
    ensures LiveOf(blocks, bytes, id) == LiveOf(blocks, bytes', id)
  {
    if blocks != [] {
      LiveSame(blocks[..|blocks| - 1], bytes, bytes', id);
    }
  }

  lemma {:induction false} LiveHas(blocks: seq<StoredBlock>, bytes: map<Slot, Bytes>, id: nat, i: nat)
    requires i < |blocks| && OnDisk(blocks[i], id)
    ensures ChunkOf(bytes, blocks[i]) in LiveOf(blocks, bytes, id)
  {
    var n := |blocks| - 1;
    if i < n {
      LiveHas(blocks[..n], bytes, id, i);
    }
  }

  // ----- steps -----

  ghost function Pending(s: State): seq<StoredBlock> {
    if s.phase.Freeing? then [s.phase.block] else []
  }

  /** The guards of the writer: the next slot in line at either end. A back push may store an evicted slot again. */
  ghost predicate InLine(s: State, side: Files.Side, slot: Slot) {
    match side
    case Front => s.next <= slot && (s.ring != [] ==> slot == s.ring[|s.ring| - 1].slot + 1)
    case Back => s.ring != [] && slot + 1 == s.ring[0].slot
  }

  ghost function Push(s: State, side: Files.Side, b: StoredBlock, publish: bool): State {
    var ring := if side == Files.Front then s.ring + [b] else [b] + s.ring;
    s.(ring := ring,
       log := s.log + [if side == Files.Front then PushFront(b) else PushBack(b)],
       stored := s.stored[b.slot := b],
       next := if s.next <= b.slot then b.slot + 1 else s.next,
       // a front push republishes only sometimes, a back push always
       first := if side == Files.Back || publish then Some(ring[0].slot) else s.first,
       phase := Idle)
  }

  /** The program refuses to release space when `head` sits at the end of the file. */
  ghost predicate CanFree(s: State) {
    && s.phase.Freeing? && s.phase.block.storageId in s.files
    && s.files[s.phase.block.storageId].geo.head < s.files[s.phase.block.storageId].geo.size
  }

  /** A write the allocator admits and that does not fill the gap to the byte. */
  ghost predicate CanBegin(s: State, side: Files.Side, b: StoredBlock, payload: Bytes) {
    && s.phase == Idle && InLine(s, side, b.slot) && b.exists_ && !b.dead
    && b.storageId in s.files && b.size == |payload|
    && var geo := s.files[b.storageId].geo;
    && Files.Admitted(geo, side, b.size) && b.offset == Files.StartOf(geo, side, b.size)
    && (payload != [] ==> !Files.FillsExactly(geo, side, b.size))
  }

  ghost function DoEvict(s: State): State
    requires s.ring != []
  {
    s.(ring := s.ring[1..],
       first := if |s.ring| == 1 then None else Some(s.ring[1].slot),
       log := s.log + [PopBack],
       phase := if s.ring[0].size == 0 then Idle else Freeing(s.ring[0]))
  }

  ghost function SetFile(s: State, id: nat, f: File): State {
    s.(files := s.files[id := f])
  }

  ghost function DoFree(s: State): State
    requires s.phase.Freeing? && s.phase.block.storageId in s.files
    requires s.files[s.phase.block.storageId].geo.size > 0
  {
    var b := s.phase.block;
    var f := s.files[b.storageId];
    SetFile(s, b.storageId, f.(geo := Files.AfterPop(f.geo, Files.Back, ChunkOf(s.bytes, b)))).(phase := Idle)
  }

  ghost function DoBegin(s: State, side: Files.Side, b: StoredBlock, payload: Bytes): State {
    s.(bytes := s.bytes[b.slot := payload], phase := Writing(side, b, {}))
  }

  ghost predicate CanWrite(s: State, k: nat) {
    && s.phase.Writing? && k < s.phase.block.size
    && s.phase.block.storageId in s.files && k < |BytesOf(s.bytes, s.phase.block.slot)|
    && s.phase.block.offset + k < |s.files[s.phase.block.storageId].data|
  }

  ghost function DoWrite(s: State, k: nat): State
    requires CanWrite(s, k)
  {
    var b := s.phase.block;
    var f := s.files[b.storageId];
    SetFile(s, b.storageId, f.(data := f.data[b.offset + k := BytesOf(s.bytes, b.slot)[k]]))
    .(phase := s.phase.(written := s.phase.written + {k}))
  }

  ghost predicate CanFinish(s: State) {
    && s.phase.Writing? && s.phase.block.storageId in s.files
    && (forall k :: 0 <= k < s.phase.block.size ==> k in s.phase.written)
    && Files.Admitted(s.files[s.phase.block.storageId].geo, s.phase.side, s.phase.block.size)
  }

  /** The file with the finished write accounted for. */
  ghost function Settled(s: State): State
    requires CanFinish(s)
  {
    var b := s.phase.block;
    var f := s.files[b.storageId];
    SetFile(s, b.storageId, f.(geo := Files.AfterWrite(f.geo, s.phase.side, b.size)))
  }

  ghost function DoFinish(s: State, publish: bool): State
    requires CanFinish(s)
  {
    Push(Settled(s), s.phase.side, s.phase.block, publish)
  }

  ghost function Replica(s: State): seq<StoredBlock>
    requires s.applied <= |s.log|
  {
    ApplyAll(s.initial, s.log[..s.applied])
  }

  ghost predicate CanLookUp(s: State, slot: Slot) {
    && s.request == Waiting && s.applied <= |s.log|
    && Search(Replica(s), slot).Some? && !Search(Replica(s), slot).value.dead
  }

  ghost function DoLookUp(s: State, slot: Slot): State
    requires CanLookUp(s, slot)
  {
    s.(request := Reading(slot, Search(Replica(s), slot).value, s.applied, map[]))
  }

  ghost predicate CanRead(s: State, k: nat) {
    && s.request.Reading? && k < s.request.block.size && s.request.block.storageId in s.files
    && s.request.block.offset + k < |s.files[s.request.block.storageId].data|
  }

  ghost function DoRead(s: State, k: nat): State
    requires CanRead(s, k)
  {
    var b := s.request.block;
    s.(request := s.request.(got := s.request.got[k := s.files[b.storageId].data[b.offset + k]]))
  }

  ghost predicate Enabled(s: State, step: Step) {
    match step
    case Evict => s.phase == Idle && s.ring != []
    case Free => CanFree(s)
    case Begin(side, b, payload) => CanBegin(s, side, b, payload)
    case WriteByte(k) => CanWrite(s, k)
    case Finish(_) => CanFinish(s)
    case PushDead(side, slot, _) => s.phase == Idle && InLine(s, side, slot)
    case ApplyMessage => s.applied < |s.log|
    case LookUp(slot) => CanLookUp(s, slot)
    case ReadByte(k) => CanRead(s, k)
    case Answer => ReadAll(s.request)
  }

  ghost function Do(s: State, step: Step): State
    requires Enabled(s, step)
  {
    match step
    case Evict => DoEvict(s)
    case Free => DoFree(s)
    case Begin(side, b, payload) => DoBegin(s, side, b, payload)
    case WriteByte(k) => DoWrite(s, k)
    case Finish(publish) => DoFinish(s, publish)
    case PushDead(side, slot, publish) => Push(s, side, DeadBlock(slot), publish)
    case ApplyMessage => s.(applied := s.applied + 1)
    case LookUp(slot) => DoLookUp(s, slot)
    case ReadByte(k) => DoRead(s, k)
    case Answer => s.(request := Waiting)
  }

  /** The whole location has been read. */
  ghost predicate ReadAll(r: Request) {
    r.Reading? && forall k :: 0 <= k < r.block.size ==> k in r.got
  }

  /** Every byte read so far is the byte stored for the slot at that place. */
  ghost predicate Matches(r: Request, bytes: map<Slot, Bytes>) {
    && r.Reading? && r.slot in bytes && |bytes[r.slot]| == r.block.size
    && forall k :: k in r.got && k < r.block.size ==> r.got[k] == bytes[r.slot][k]
  }

  /** What was read is the block stored for the slot, byte for byte. */
  ghost predicate Exact(r: Request, bytes: map<Slot, Bytes>) {
    && Matches(r, bytes)
    && forall k :: 0 <= k < |bytes[r.slot]| ==> k in r.got
  }

  /** The re-check after the read: `slot > first_available`. */
  ghost predicate Accepted(s: State) {
    s.request.Reading? && s.first.Some? && s.first.value < s.request.slot
  }

  // ----- the invariant -----

  type Stored = map<Slot, StoredBlock>

  /** Evicted for good: below the published first slot and below everything in the ring. */
  ghost predicate Gone(first: Option<Slot>, ring: seq<StoredBlock>, slot: Slot) {
    && (first.None? || slot < first.value)
    && (ring != [] ==> slot < ring[0].slot)
  }

  /** Every record ever stored is still in the ring or gone. */
  ghost predicate Accounted(stored: Stored, ring: seq<StoredBlock>, first: Option<Slot>) {
    forall t :: t in stored ==> stored[t] in ring || Gone(first, ring, t)
  }

  ghost predicate Recorded(stored: Stored, b: StoredBlock) {
    b.slot in stored && stored[b.slot] == b
  }

  /** A record's size is the length of its payload; dead slots have none. */
  ghost predicate Proper(ids: set<nat>, bytes: map<Slot, Bytes>, b: StoredBlock) {
    && (b.dead ==> b.size == 0)
    && (!b.dead ==> b.storageId in ids && b.slot in bytes && |bytes[b.slot]| == b.size)
  }

  /** Slots stored so far lie below `next`, and the blocks in use are on record. */
  ghost predicate Records(stored: Stored, blocks: seq<StoredBlock>, next: Slot, ids: set<nat>,
                          bytes: map<Slot, Bytes>) {
    && (forall t :: t in stored ==> stored[t].slot == t && t < next)
    && (forall i :: 0 <= i < |blocks| ==> Recorded(stored, blocks[i]) && Proper(ids, bytes, blocks[i]))
  }

  /** The message stores a slot. */
  predicate Stores(m: Message, slot: Slot) {
    (m.PushFront? || m.PushBack?) && m.block.slot == slot
  }

  /** From message `n` on the slot is not stored again. */
  ghost predicate NotAgain(log: seq<Message>, n: nat, slot: Slot) {
    forall i :: n <= i < |log| ==> !Stores(log[i], slot)
  }

  /** The last record of a slot in the log is the one on record. */
  ghost predicate Logged(stored: Stored, initial: seq<StoredBlock>, log: seq<Message>) {
    && (forall i :: 0 <= i < |initial| && NotAgain(log, 0, initial[i].slot) ==> Recorded(stored, initial[i]))
    && (forall i :: 0 <= i < |log| && (log[i].PushFront? || log[i].PushBack?) && NotAgain(log, i + 1, log[i].block.slot) ==>
          Recorded(stored, log[i].block))
  }

  /** Every prefix of the log describes a ring of consecutive slots, and the whole log the present one. */
  ghost predicate Mirrors(initial: seq<StoredBlock>, log: seq<Message>, ring: seq<StoredBlock>) {
    && ApplyAll(initial, log) == ring
    && forall n :: 0 <= n <= |log| ==> Consecutive(ApplyAll(initial, log[..n]))
  }

  ghost predicate FileLaidOut(f: File, live: seq<Files.Chunk>) {
    |f.data| == f.geo.size && Files.LaidOut(f.geo, live)
  }

  ghost predicate Allocated(files: map<nat, File>, blocks: seq<StoredBlock>, bytes: map<Slot, Bytes>) {
    forall id :: id in files ==> FileLaidOut(files[id], LiveOf(blocks, bytes, id))
  }

  /** Every stored block's bytes are in its file. */
  ghost predicate Kept(files: map<nat, File>, ring: seq<StoredBlock>, bytes: map<Slot, Bytes>) {
    forall i :: 0 <= i < |ring| ==> !ring[i].dead && ring[i].size > 0 ==>
      ring[i].storageId in files && Files.Intact(files[ring[i].storageId].data, ChunkOf(bytes, ring[i]))
  }

  /** An evicted block whose space is not yet released still adjoins the ring, and its bytes are in its file. */
  ghost predicate PendingKept(phase: Phase, files: map<nat, File>, ring: seq<StoredBlock>, bytes: map<Slot, Bytes>) {
    phase.Freeing? ==>
      phase.block.size > 0 && Consecutive([phase.block] + ring) && Kept(files, [phase.block] + ring, bytes)
  }

  /** The write in progress: where it goes, and the bytes already there. */
  ghost predicate Writes(f: File, side: Files.Side, b: StoredBlock, payload: Bytes, written: set<nat>) {
    && |payload| == b.size
    && Files.Admitted(f.geo, side, b.size) && b.offset == Files.StartOf(f.geo, side, b.size)
    && (b.size > 0 ==> !Files.FillsExactly(f.geo, side, b.size))
    && b.offset + b.size <= |f.data|
    && forall k :: k in written && k < b.size ==> f.data[b.offset + k] == payload[k]
  }

  ghost predicate WriteUnderWay(s: State) {
    s.phase.Writing? ==>
      var b := s.phase.block;
      && InLine(s, s.phase.side, b.slot) && b.exists_ && !b.dead
      && b.storageId in s.files && b.slot in s.bytes
      && Writes(s.files[b.storageId], s.phase.side, b, s.bytes[b.slot], s.phase.written)
  }

  /**
   As long as the slot is not stored again after the look-up, the record is the
   slot's own; and while it is in the ring, everything read so far is right.
   */
  ghost predicate ReadSoFar(r: Request, stored: Stored, ring: seq<StoredBlock>, bytes: map<Slot, Bytes>, log: seq<Message>) {
    r.Reading? ==>
      && r.block.slot == r.slot && !r.block.dead && r.seen <= |log|
      && (NotAgain(log, r.seen, r.slot) ==>
            && Recorded(stored, r.block)
            && (r.block in ring ==>
                  forall k :: k in r.got && k < r.block.size ==>
                    r.slot in bytes && k < |bytes[r.slot]| && r.got[k] == bytes[r.slot][k]))
  }

  ghost predicate Inv(s: State) {
    && s.applied <= |s.log|
    && Consecutive(s.ring)
    && PendingKept(s.phase, s.files, s.ring, s.bytes)
    && Records(s.stored, Pending(s) + s.ring, s.next, s.files.Keys, s.bytes)
    && Accounted(s.stored, s.ring, s.first)
    && Logged(s.stored, s.initial, s.log) && Mirrors(s.initial, s.log, s.ring)
    && Allocated(s.files, Pending(s) + s.ring, s.bytes)
    && Kept(s.files, s.ring, s.bytes)
    && WriteUnderWay(s)
    && ReadSoFar(s.request, s.stored, s.ring, s.bytes, s.log)
  }

  /** The slot has not been stored again since the reader looked it up. */
  ghost predicate Unrepeated(s: State) {
    s.request.Reading? && NotAgain(s.log, s.request.seen, s.request.slot)
  }

  /** Accepted bytes are the slot's block: the pop published `first_available` before reuse. */
  lemma AcceptedIsExact(s: State)
    requires Inv(s) && Accepted(s) && Unrepeated(s)
    ensures Matches(s.request, s.bytes)
  {
    hide Allocated, Kept, WriteUnderWay, Logged, Mirrors, NotAgain;
    var b := s.request.block;
    assert !Gone(s.first, s.ring, b.slot);
    var i :| 0 <= i < |s.ring| && s.ring[i] == b;
    assert (Pending(s) + s.ring)[|Pending(s)| + i] == b;
  }

  // ----- what each change does to the parts of the invariant -----

  lemma EvictAccounted(stored: Stored, ring: seq<StoredBlock>, first: Option<Slot>,
                       next: Slot, ids: set<nat>, bytes: map<Slot, Bytes>)
    requires Accounted(stored, ring, first) && Consecutive(ring) && ring != []
    requires Records(stored, ring, next, ids, bytes)
    ensures Accounted(stored, ring[1..], if |ring| == 1 then None else Some(ring[1].slot))
  {
    var rest := ring[1..];
    var first' := if |ring| == 1 then None else Some(ring[1].slot);
    forall u | u in stored ensures stored[u] in rest || Gone(first', rest, u) {
      if stored[u] in ring {
        var i :| 0 <= i < |ring| && ring[i] == stored[u];
        if i > 0 {
          assert rest[i - 1] == stored[u];
        }
      }
    }
  }

  /** A block without bytes does not occupy its file. */
  lemma DropEmpty(files: map<nat, File>, blocks: seq<StoredBlock>, bytes: map<Slot, Bytes>, b: StoredBlock)
    requires b.size == 0
    ensures Allocated(files, [b] + blocks, bytes) <==> Allocated(files, blocks, bytes)
    ensures Allocated(files, blocks + [b], bytes) <==> Allocated(files, blocks, bytes)
  {
    hide FileLaidOut;
    forall id ensures LiveOf([b] + blocks, bytes, id) == LiveOf(blocks, bytes, id)
              ensures LiveOf(blocks + [b], bytes, id) == LiveOf(blocks, bytes, id)
    {
      LiveCons(blocks, bytes, id, b);
      LiveSnoc(blocks, bytes, id, b);
    }
  }

  lemma FreeAllocated(files: map<nat, File>, blocks: seq<StoredBlock>, bytes: map<Slot, Bytes>, b: StoredBlock)
    requires Allocated(files, [b] + blocks, bytes) && OnDisk(b, b.storageId) && b.storageId in files
    requires files[b.storageId].geo.head < files[b.storageId].geo.size
    ensures var f := files[b.storageId];
      Allocated(files[b.storageId := f.(geo := Files.AfterPop(f.geo, Files.Back, ChunkOf(bytes, b)))], blocks, bytes)
  {
    hide LiveOf, Files.LaidOut, Files.AfterPop;
    var f := files[b.storageId];
    var files' := files[b.storageId := f.(geo := Files.AfterPop(f.geo, Files.Back, ChunkOf(bytes, b)))];
    forall id | id in files' ensures FileLaidOut(files'[id], LiveOf(blocks, bytes, id)) {
      LiveCons(blocks, bytes, id, b);
      var live := LiveOf([b] + blocks, bytes, id);
      assert FileLaidOut(files[id], live);
      if id == b.storageId {
        assert live[0] == ChunkOf(bytes, b) && live[1..] == LiveOf(blocks, bytes, id);
        Files.PopBackKeeps(f.geo, live);
        PopKeepsSize(f.geo, ChunkOf(bytes, b));
      } else {
        assert live == LiveOf(blocks, bytes, id);
      }
    }
  }

  lemma PopKeepsSize(g: Files.Geometry, c: Files.Chunk)
    requires g.size > 0
    ensures Files.AfterPop(g, Files.Back, c).size == g.size
  {
  }

  lemma AddedAllocated(files: map<nat, File>, blocks: seq<StoredBlock>, bytes: map<Slot, Bytes>, b: StoredBlock,
                       side: Files.Side)
    requires Allocated(files, blocks, bytes) && !b.dead && b.storageId in files && b.slot in bytes
    requires Writes(files[b.storageId], side, b, bytes[b.slot], {})
    ensures var f := files[b.storageId];
      var blocks' := if side == Files.Front then blocks + [b] else [b] + blocks;
      Allocated(files[b.storageId := f.(geo := Files.AfterWrite(f.geo, side, b.size))], blocks', bytes)
  {
    hide LiveOf, Files.LaidOut, Files.AfterWrite, Files.Admitted, Files.FillsExactly, Files.StartOf;
    var f := files[b.storageId];
    var files' := files[b.storageId := f.(geo := Files.AfterWrite(f.geo, side, b.size))];
    var blocks' := if side == Files.Front then blocks + [b] else [b] + blocks;
    forall id | id in files' ensures FileLaidOut(files'[id], LiveOf(blocks', bytes, id)) {
      LiveSnoc(blocks, bytes, id, b);
      LiveCons(blocks, bytes, id, b);
      var live := LiveOf(blocks, bytes, id);
      assert FileLaidOut(files[id], live);
      if id == b.storageId {
        assert LiveOf(blocks', bytes, id) == Files.Added(live, side, ChunkOf(bytes, b));
        AddedLaidOut(f.geo, live, side, bytes[b.slot]);
      } else {
        assert LiveOf(blocks', bytes, id) == live;
      }
    }
  }

  lemma AddedLaidOut(g: Files.Geometry, live: seq<Files.Chunk>, side: Files.Side, payload: Bytes)
    requires Files.LaidOut(g, live) && Files.Admitted(g, side, |payload|)
    requires payload != [] ==> !Files.FillsExactly(g, side, |payload|)
    ensures var g' := Files.AfterWrite(g, side, |payload|);
      && g'.size == g.size
      && Files.LaidOut(g', Files.Added(live, side, Files.Chunk(Files.StartOf(g, side, |payload|), payload)))
  {
    Files.WriteKeeps(g, live, side, payload);
    if payload != [] {
      var k :| Files.LaidOutAt(g, live, k);
      Files.EndsMeetIff(g, side, |payload|);
    }
  }

  /** Writing one byte of the region leaves every stored block alone. */
  lemma PokeKept(files: map<nat, File>, ring: seq<StoredBlock>, bytes: map<Slot, Bytes>, side: Files.Side,
                 b: StoredBlock, written: set<nat>, k: nat)
    requires Allocated(files, ring, bytes) && Kept(files, ring, bytes)
    requires b.storageId in files && b.slot in bytes && k < b.size
    requires Writes(files[b.storageId], side, b, bytes[b.slot], written)
    ensures var f := files[b.storageId];
      Kept(files[b.storageId := f.(data := f.data[b.offset + k := bytes[b.slot][k]])], ring, bytes)
  {
    hide LiveOf, Files.LaidOut, Files.Admitted, Files.FillsExactly, Files.StartOf, Files.Intact, Files.Apart;
    var f := files[b.storageId];
    var files' := files[b.storageId := f.(data := f.data[b.offset + k := bytes[b.slot][k]])];
    var live := LiveOf(ring, bytes, b.storageId);
    assert FileLaidOut(f, live);
    Files.WriteIsApart(f.geo, live, side, bytes[b.slot]);
    forall i | 0 <= i < |ring| && !ring[i].dead && ring[i].size > 0
      ensures ring[i].storageId in files' && Files.Intact(files'[ring[i].storageId].data, ChunkOf(bytes, ring[i]))
    {
      if ring[i].storageId == b.storageId {
        LiveHas(ring, bytes, b.storageId, i);
        PokeKeeps(f.data, b.offset + k, bytes[b.slot][k], ChunkOf(bytes, b), ChunkOf(bytes, ring[i]));
      }
    }
  }

  lemma PokeKeeps(data: Bytes, at: nat, v: Byte, writing: Files.Chunk, c: Files.Chunk)
    requires writing.offset <= at < Files.End(writing) && at < |data|
    requires Files.Intact(data, c) && Files.Apart(writing, c)
    ensures Files.Intact(data[at := v], c)
  {
    assert data[at := v][c.offset..Files.End(c)] == data[c.offset..Files.End(c)];
  }

  lemma PokeAllocated(files: map<nat, File>, blocks: seq<StoredBlock>, bytes: map<Slot, Bytes>, id: nat, data: Bytes)
    requires Allocated(files, blocks, bytes) && id in files && |data| == |files[id].data|
    ensures Allocated(files[id := files[id].(data := data)], blocks, bytes)
  {
    hide LiveOf, Files.LaidOut;
    assert FileLaidOut(files[id], LiveOf(blocks, bytes, id));
  }

  /** New bytes for a fresh slot change nothing for the slots on record. */
  lemma FreshBytes(files: map<nat, File>, blocks: seq<StoredBlock>, bytes: map<Slot, Bytes>, slot: Slot, payload: Bytes)
    requires forall i :: 0 <= i < |blocks| ==> blocks[i].slot != slot
    ensures Allocated(files, blocks, bytes) <==> Allocated(files, blocks, bytes[slot := payload])
    ensures Kept(files, blocks, bytes) <==> Kept(files, blocks, bytes[slot := payload])
  {
    hide FileLaidOut, LiveOf, Files.Intact;
    forall id ensures LiveOf(blocks, bytes, id) == LiveOf(blocks, bytes[slot := payload], id) {
      LiveSame(blocks, bytes, bytes[slot := payload], id);
    }
    assert forall i :: 0 <= i < |blocks| ==> ChunkOf(bytes, blocks[i]) == ChunkOf(bytes[slot := payload], blocks[i]);
  }

  /** A slot in line is not in the ring. */
  lemma FreshSlot(s: State, side: Files.Side, slot: Slot)
    requires Records(s.stored, Pending(s) + s.ring, s.next, s.files.Keys, s.bytes)
    requires InLine(s, side, slot) && Consecutive(s.ring)
    ensures forall i :: 0 <= i < |s.ring| ==> s.ring[i].slot != slot
  {
  }

  // ----- pushing a record -----

  lemma PushRecords(s: State, side: Files.Side, b: StoredBlock, publish: bool)
    requires Records(s.stored, s.ring, s.next, s.files.Keys, s.bytes) && !s.phase.Freeing?
    requires Proper(s.files.Keys, s.bytes, b) && forall i :: 0 <= i < |s.ring| ==> s.ring[i].slot != b.slot
    ensures var t := Push(s, side, b, publish);
      Records(t.stored, t.ring, t.next, t.files.Keys, t.bytes)
  {
    hide Proper;
  }

  lemma PushConsecutive(s: State, side: Files.Side, b: StoredBlock, publish: bool)
    requires Consecutive(s.ring) && InLine(s, side, b.slot)
    ensures Consecutive(Push(s, side, b, publish).ring)
  {
  }

  ghost function PushMessage(side: Files.Side, b: StoredBlock): Message {
    if side == Files.Front then PushFront(b) else PushBack(b)
  }

  /** A longer log can only repeat more. */
  lemma NotAgainShorter(log: seq<Message>, m: Message, n: nat, slot: Slot)
    requires n <= |log|
    ensures NotAgain(log + [m], n, slot) <==> NotAgain(log, n, slot) && !Stores(m, slot)
  {
    var longer := log + [m];
    assert longer[|log|] == m;
    if NotAgain(longer, n, slot) {
      assert forall i :: n <= i < |log| ==> longer[i] == log[i];
    }
  }

  lemma PushLogged(s: State, side: Files.Side, b: StoredBlock, publish: bool)
    requires Logged(s.stored, s.initial, s.log)
    ensures var t := Push(s, side, b, publish); Logged(t.stored, t.initial, t.log)
  {
    hide NotAgain;
    LongerLogged(s.stored, s.stored[b.slot := b], s.initial, s.log, PushMessage(side, b));
  }

  /** One more message, with its slot's record replaced if it stores one. */
  lemma LongerLogged(stored: Stored, stored': Stored, initial: seq<StoredBlock>, log: seq<Message>, m: Message)
    requires Logged(stored, initial, log)
    requires stored' == if m.PushFront? || m.PushBack? then stored[m.block.slot := m.block] else stored
    ensures Logged(stored', initial, log + [m])
  {
    hide NotAgain;
    var longer := log + [m];
    forall i | 0 <= i < |initial| && NotAgain(longer, 0, initial[i].slot) ensures Recorded(stored', initial[i]) {
      NotAgainShorter(log, m, 0, initial[i].slot);
    }
    forall i | 0 <= i < |longer| && (longer[i].PushFront? || longer[i].PushBack?) && NotAgain(longer, i + 1, longer[i].block.slot)
      ensures Recorded(stored', longer[i].block)
    {
      if i < |log| {
        assert longer[i] == log[i];
        NotAgainShorter(log, m, i + 1, log[i].block.slot);
      }
    }
  }

  /** One more message that keeps the slots consecutive. */
  lemma LongerMirrors(initial: seq<StoredBlock>, log: seq<Message>, ring: seq<StoredBlock>, m: Message)
    requires Mirrors(initial, log, ring) && Consecutive(Apply(ring, m))
    ensures Mirrors(initial, log + [m], Apply(ring, m))
  {
    hide Consecutive;
    var longer := log + [m];
    assert longer[..|log|] == log;
    forall n | 0 <= n <= |longer| ensures Consecutive(ApplyAll(initial, longer[..n])) {
      if n <= |log| {
        assert longer[..n] == log[..n];
      } else {
        assert longer[..n] == longer;
      }
    }
  }

  lemma PushMirrors(s: State, side: Files.Side, b: StoredBlock, publish: bool)
    requires Mirrors(s.initial, s.log, s.ring) && Consecutive(s.ring) && InLine(s, side, b.slot)
    ensures var t := Push(s, side, b, publish); Mirrors(t.initial, t.log, t.ring)
  {
    hide Mirrors;
    PushConsecutive(s, side, b, publish);
    LongerMirrors(s.initial, s.log, s.ring, PushMessage(side, b));
  }

  lemma PushAccounted(s: State, side: Files.Side, b: StoredBlock, publish: bool)
    requires Accounted(s.stored, s.ring, s.first) && InLine(s, side, b.slot)
    requires Records(s.stored, s.ring, s.next, s.files.Keys, s.bytes)
    ensures var t := Push(s, side, b, publish); Accounted(t.stored, t.ring, t.first)
  {
    var t := Push(s, side, b, publish);
    assert forall c :: c in t.ring <==> c == b || c in s.ring;
    forall u | u in t.stored ensures t.stored[u] in t.ring || Gone(t.first, t.ring, u) {
      if u != b.slot && s.stored[u] !in s.ring {
        assert Gone(s.first, s.ring, u);
        assert side == Files.Front ==> t.ring[0] == if s.ring == [] then b else s.ring[0];
      }
    }
  }

  lemma PushReadSoFar(s: State, side: Files.Side, b: StoredBlock, publish: bool)
    requires ReadSoFar(s.request, s.stored, s.ring, s.bytes, s.log)
    ensures var t := Push(s, side, b, publish); ReadSoFar(t.request, t.stored, t.ring, t.bytes, t.log)
  {
    hide NotAgain;
    var t := Push(s, side, b, publish);
    assert forall c :: c in t.ring <==> c == b || c in s.ring;
    if s.request.Reading? {
      NotAgainShorter(s.log, PushMessage(side, b), s.request.seen, s.request.slot);
    }
  }

  lemma PushKept(files: map<nat, File>, ring: seq<StoredBlock>, bytes: map<Slot, Bytes>, b: StoredBlock)
    requires Kept(files, ring, bytes)
    requires !b.dead && b.size > 0 ==>
               b.storageId in files && Files.Intact(files[b.storageId].data, ChunkOf(bytes, b))
    ensures Kept(files, ring + [b], bytes) && Kept(files, [b] + ring, bytes)
  {
    hide Files.Intact;
  }

  /** Everything but the files and the write in progress. */
  ghost predicate Books(s: State) {
    && s.applied <= |s.log|
    && Consecutive(s.ring)
    && Records(s.stored, s.ring, s.next, s.files.Keys, s.bytes)
    && Accounted(s.stored, s.ring, s.first)
    && Logged(s.stored, s.initial, s.log) && Mirrors(s.initial, s.log, s.ring)
    && ReadSoFar(s.request, s.stored, s.ring, s.bytes, s.log)
  }

  lemma PushBooks(s: State, side: Files.Side, b: StoredBlock, publish: bool)
    requires Books(s) && !s.phase.Freeing? && InLine(s, side, b.slot) && Proper(s.files.Keys, s.bytes, b)
    ensures Books(Push(s, side, b, publish))
  {
    hide Records, Accounted, Logged, Mirrors, ReadSoFar, Proper, InLine, Consecutive;
    assert Pending(s) + s.ring == s.ring;
    FreshSlot(s, side, b.slot);
    PushRecords(s, side, b, publish);
    PushConsecutive(s, side, b, publish);
    PushLogged(s, side, b, publish);
    PushMirrors(s, side, b, publish);
    PushAccounted(s, side, b, publish);
    PushReadSoFar(s, side, b, publish);
  }

  /** The whole push, once the file is settled. */
  lemma PushKeeps(s: State, side: Files.Side, b: StoredBlock, publish: bool)
    requires Books(s) && !s.phase.Freeing? && InLine(s, side, b.slot) && Proper(s.files.Keys, s.bytes, b)
    requires Kept(s.files, s.ring, s.bytes)
    requires !b.dead && b.size > 0 ==>
               b.storageId in s.files && Files.Intact(s.files[b.storageId].data, ChunkOf(s.bytes, b))
    requires Allocated(s.files, if side == Files.Front then s.ring + [b] else [b] + s.ring, s.bytes)
    ensures Inv(Push(s, side, b, publish))
  {
    hide Records, Accounted, Logged, Mirrors, Allocated, Kept, WriteUnderWay, ReadSoFar, Proper, InLine, Consecutive, Files.Intact;
    PushBooks(s, side, b, publish);
    var t := Push(s, side, b, publish);
    assert Pending(t) + t.ring == t.ring;
    PushKept(s.files, s.ring, s.bytes, b);
    NothingUnderWay(t);
  }

  lemma NothingUnderWay(s: State)
    requires !s.phase.Writing?
    ensures WriteUnderWay(s)
  {
  }

  // ----- every step keeps the invariant -----

  lemma EvictKeeps(s: State)
    requires Inv(s) && s.phase == Idle && s.ring != []
    ensures Inv(DoEvict(s))
  {
    hide Records, Accounted, Logged, Mirrors, Allocated, Kept, WriteUnderWay, ReadSoFar, Consecutive;
    var b, rest := s.ring[0], s.ring[1..];
    assert s.ring == [b] + rest && Pending(s) + s.ring == s.ring;
    EvictAccounted(s.stored, s.ring, s.first, s.next, s.files.Keys, s.bytes);
    EvictRecords(s.stored, s.ring, s.next, s.files.Keys, s.bytes);
    EvictRest(s, rest);
    if b.size == 0 {
      DropEmpty(s.files, rest, s.bytes, b);
    }
    var t := DoEvict(s);
    assert PendingKept(t.phase, t.files, t.ring, t.bytes);
    assert Pending(t) + t.ring == if b.size == 0 then rest else s.ring;
    NothingUnderWay(t);
  }

  lemma EvictRecords(stored: Stored, ring: seq<StoredBlock>, next: Slot, ids: set<nat>, bytes: map<Slot, Bytes>)
    requires Records(stored, ring, next, ids, bytes) && ring != []
    ensures Records(stored, ring[1..], next, ids, bytes)
  {
    hide Proper, Recorded;
    assert forall i :: 0 <= i < |ring[1..]| ==> ring[1..][i] == ring[i + 1];
  }

  lemma EvictRest(s: State, rest: seq<StoredBlock>)
    requires Consecutive(s.ring) && s.ring != [] && rest == s.ring[1..]
    requires Kept(s.files, s.ring, s.bytes) && ReadSoFar(s.request, s.stored, s.ring, s.bytes, s.log)
    requires Logged(s.stored, s.initial, s.log) && Mirrors(s.initial, s.log, s.ring)
    ensures Consecutive(rest) && Kept(s.files, rest, s.bytes)
    ensures ReadSoFar(s.request, s.stored, rest, s.bytes, s.log + [PopBack])
    ensures Logged(s.stored, s.initial, s.log + [PopBack]) && Mirrors(s.initial, s.log + [PopBack], rest)
  {
    hide Files.Intact, NotAgain, Logged, Mirrors;
    assert forall i :: 0 <= i < |rest| ==> rest[i] == s.ring[i + 1];
    assert forall c :: c in rest ==> c in s.ring;
    LongerLogged(s.stored, s.stored, s.initial, s.log, PopBack);
    LongerMirrors(s.initial, s.log, s.ring, PopBack);
    if s.request.Reading? {
      NotAgainShorter(s.log, PopBack, s.request.seen, s.request.slot);
    }
  }

  lemma FreeKeeps(s: State)
    requires Inv(s) && CanFree(s)
    ensures Inv(DoFree(s))
  {
    hide Records, Accounted, Logged, Mirrors, Allocated, Kept, WriteUnderWay, ReadSoFar, Consecutive, Files.AfterPop;
    var b := s.phase.block;
    var blocks := Pending(s) + s.ring;
    assert blocks == [b] + s.ring && blocks[1..] == s.ring;
    EvictRecords(s.stored, blocks, s.next, s.files.Keys, s.bytes);
    FrontOnDisk(s.stored, blocks, s.next, s.files.Keys, s.bytes);
    FreeAllocated(s.files, s.ring, s.bytes, b);
    var t := DoFree(s);
    SameDataKept(s.files, t.files, s.ring, s.bytes);
    assert Pending(t) + t.ring == s.ring;
    assert t.files.Keys == s.files.Keys;
    NothingUnderWay(t);
  }

  lemma FrontOnDisk(stored: Stored, blocks: seq<StoredBlock>, next: Slot, ids: set<nat>, bytes: map<Slot, Bytes>)
    requires Records(stored, blocks, next, ids, bytes) && blocks != [] && blocks[0].size > 0
    ensures OnDisk(blocks[0], blocks[0].storageId)
  {
  }

  lemma SameDataKept(files: map<nat, File>, files': map<nat, File>, ring: seq<StoredBlock>, bytes: map<Slot, Bytes>)
    requires Kept(files, ring, bytes)
    requires forall id :: id in files ==> id in files' && files'[id].data == files[id].data
    ensures Kept(files', ring, bytes)
  {
    hide Files.Intact;
  }

  lemma BeginKeeps(s: State, side: Files.Side, b: StoredBlock, payload: Bytes)
    requires Inv(s) && CanBegin(s, side, b, payload)
    ensures Inv(DoBegin(s, side, b, payload))
  {
    hide Records, Accounted, Logged, Mirrors, Allocated, Kept, ReadSoFar, Consecutive;
    assert Pending(s) + s.ring == s.ring;
    FreshSlot(s, side, b.slot);
    FreshBytes(s.files, s.ring, s.bytes, b.slot, payload);
    FreshRecords(s, b.slot, payload);
    FileSized(s.files, s.ring, s.bytes, b.storageId);
    var t := DoBegin(s, side, b, payload);
    assert Pending(t) + t.ring == s.ring;
    assert InLine(t, side, b.slot);
    assert Writes(t.files[b.storageId], side, b, payload, {});
  }

  lemma FileSized(files: map<nat, File>, blocks: seq<StoredBlock>, bytes: map<Slot, Bytes>, id: nat)
    requires Allocated(files, blocks, bytes) && id in files
    ensures |files[id].data| == files[id].geo.size
  {
    assert FileLaidOut(files[id], LiveOf(blocks, bytes, id));
  }

  lemma FreshRecords(s: State, slot: Slot, payload: Bytes)
    requires Records(s.stored, s.ring, s.next, s.files.Keys, s.bytes)
    requires forall i :: 0 <= i < |s.ring| ==> s.ring[i].slot != slot
    requires ReadSoFar(s.request, s.stored, s.ring, s.bytes, s.log)
    ensures Records(s.stored, s.ring, s.next, s.files.Keys, s.bytes[slot := payload])
    ensures ReadSoFar(s.request, s.stored, s.ring, s.bytes[slot := payload], s.log)
  {
    hide NotAgain;
  }

  lemma WriteByteKeeps(s: State, k: nat)
    requires Inv(s) && CanWrite(s, k)
    ensures Inv(DoWrite(s, k))
  {
    hide Records, Accounted, Logged, Mirrors, Allocated, Kept, ReadSoFar, Consecutive, Writes;
    var b := s.phase.block;
    var f := s.files[b.storageId];
    assert Pending(s) + s.ring == s.ring;
    PokeKept(s.files, s.ring, s.bytes, s.phase.side, b, s.phase.written, k);
    PokeAllocated(s.files, s.ring, s.bytes, b.storageId, f.data[b.offset + k := s.bytes[b.slot][k]]);
    PokeWrites(f, s.phase.side, b, s.bytes[b.slot], s.phase.written, k);
    var t := DoWrite(s, k);
    assert Pending(t) + t.ring == s.ring;
    assert t.files.Keys == s.files.Keys;
    assert InLine(t, s.phase.side, b.slot);
  }

  lemma PokeWrites(f: File, side: Files.Side, b: StoredBlock, payload: Bytes, written: set<nat>, k: nat)
    requires Writes(f, side, b, payload, written) && k < b.size
    ensures Writes(f.(data := f.data[b.offset + k := payload[k]]), side, b, payload, written + {k})
  {
    hide Files.Admitted, Files.FillsExactly, Files.StartOf;
  }

  lemma FinishKeeps(s: State, publish: bool)
    requires Inv(s) && CanFinish(s)
    ensures Inv(DoFinish(s, publish))
  {
    hide Records, Accounted, Logged, Mirrors, Allocated, Kept, ReadSoFar, Consecutive, Writes, Files.Intact, Files.AfterWrite, Files.Admitted;
    var b, side := s.phase.block, s.phase.side;
    var f := s.files[b.storageId];
    assert Pending(s) + s.ring == s.ring;
    WrittenIsIntact(f, side, b, s.bytes, s.phase.written);
    AddedAllocated(s.files, s.ring, s.bytes, b, side);
    var m := Settled(s);
    assert m.files.Keys == s.files.Keys;
    SameDataKept(s.files, m.files, s.ring, s.bytes);
    assert InLine(m, side, b.slot);
    PushKeeps(m, side, b, publish);
  }

  lemma WrittenIsIntact(f: File, side: Files.Side, b: StoredBlock, bytes: map<Slot, Bytes>, written: set<nat>)
    requires b.slot in bytes && Writes(f, side, b, bytes[b.slot], written)
    requires forall k :: 0 <= k < b.size ==> k in written
    ensures Files.Intact(f.data, ChunkOf(bytes, b)) && |bytes[b.slot]| == b.size
    ensures Writes(f, side, b, bytes[b.slot], {})
  {
    hide Files.Admitted, Files.FillsExactly, Files.StartOf;
    assert f.data[b.offset..b.offset + b.size] == bytes[b.slot];
  }

  lemma PushDeadKeeps(s: State, side: Files.Side, slot: Slot, publish: bool)
    requires Inv(s) && s.phase == Idle && InLine(s, side, slot)
    ensures Inv(Push(s, side, DeadBlock(slot), publish))
  {
    hide Records, Accounted, Logged, Mirrors, Allocated, Kept, WriteUnderWay, ReadSoFar, InLine, Consecutive;
    assert Pending(s) + s.ring == s.ring;
    DropEmpty(s.files, s.ring, s.bytes, DeadBlock(slot));
    PushKeeps(s, side, DeadBlock(slot), publish);
  }

  lemma LookUpKeeps(s: State, slot: Slot)
    requires Inv(s) && CanLookUp(s, slot)
    ensures Inv(DoLookUp(s, slot))
  {
    hide PendingKept, Records, Accounted, Logged, Mirrors, Allocated, Kept, Consecutive, ApplyAll, Search;
    ReplicaRecorded(s.stored, s.initial, s.log, s.ring, s.applied);
    SearchIn(Replica(s), slot);
    var t := DoLookUp(s, slot);
    assert Pending(t) + t.ring == Pending(s) + s.ring;
    SameWrite(s, t);
  }

  /** The reader's own steps do not touch what the writer is doing. */
  lemma SameWrite(s: State, t: State)
    requires WriteUnderWay(s) && t == s.(applied := t.applied, request := t.request)
    ensures WriteUnderWay(t)
  {
    hide Writes;
    assert s.phase.Writing? ==> InLine(t, s.phase.side, s.phase.block.slot);
  }

  /** What a replica holds is on record, unless the slot was stored again since. */
  lemma {:induction false} ReplicaRecorded(stored: Stored, initial: seq<StoredBlock>, log: seq<Message>, ring: seq<StoredBlock>, n: nat)
    requires Logged(stored, initial, log) && Mirrors(initial, log, ring) && n <= |log|
    ensures forall b :: b in ApplyAll(initial, log[..n]) && NotAgain(log, n, b.slot) ==> Recorded(stored, b)
  {
    hide Recorded, NotAgain, Apply, Consecutive;
    if n == 0 {
      assert log[..0] == [];
    } else {
      ReplicaRecorded(stored, initial, log, ring, n - 1);
      var before, m := ApplyAll(initial, log[..n - 1]), log[n - 1];
      assert log[..n][..n - 1] == log[..n - 1];
      assert Consecutive(ApplyAll(initial, log[..n]));
      forall b | b in Apply(before, m) && NotAgain(log, n, b.slot) ensures Recorded(stored, b) {
        OldOrNew(before, m, b);
        if b in before && !Stores(m, b.slot) {
          NotAgainFrom(log, n, b.slot);
        }
      }
    }
  }

  /** In a ring of consecutive slots a record is the one just stored, or an older one of another slot. */
  lemma OldOrNew(before: seq<StoredBlock>, m: Message, b: StoredBlock)
    requires b in Apply(before, m) && Consecutive(Apply(before, m))
    ensures ((m.PushFront? || m.PushBack?) && b == m.block) || (b in before && !Stores(m, b.slot))
  {
    hide Consecutive;
    if !((m.PushFront? || m.PushBack?) && b == m.block) {
      assert b in before;
      OtherSlot(before, m, b);
    }
  }

  /** In a consecutive ring a message stores no slot that is already there. */
  lemma OtherSlot(before: seq<StoredBlock>, m: Message, b: StoredBlock)
    requires b in before && Consecutive(Apply(before, m)) && ((m.PushFront? || m.PushBack?) ==> b != m.block)
    ensures !Stores(m, b.slot)
  {
    var i :| 0 <= i < |before| && before[i] == b;
    var after := Apply(before, m);
    if m.PushFront? {
      assert after[i] == b && after[|before|] == m.block;
    } else if m.PushBack? {
      assert after[i + 1] == b && after[0] == m.block;
    }
  }

  lemma NotAgainFrom(log: seq<Message>, n: nat, slot: Slot)
    requires 0 < n <= |log| && NotAgain(log, n, slot) && !Stores(log[n - 1], slot)
    ensures NotAgain(log, n - 1, slot)
  {
  }

  lemma {:induction false} SearchIn(contents: seq<StoredBlock>, slot: Slot)
    ensures Search(contents, slot).Some? ==>
              Search(contents, slot).value in contents && Search(contents, slot).value.slot == slot
  {
    if contents != [] && contents[0].slot != slot {
      SearchIn(contents[1..], slot);
    }
  }

  lemma ReadByteKeeps(s: State, k: nat)
    requires Inv(s) && CanRead(s, k)
    ensures Inv(DoRead(s, k))
  {
    hide PendingKept, Records, Accounted, Logged, Mirrors, Allocated, Kept, Consecutive, WriteUnderWay;
    var b := s.request.block;
    if b in s.ring {
      StoredByte(s, b, k);
    }
    var t := DoRead(s, k);
    assert Pending(t) + t.ring == Pending(s) + s.ring;
    SameWrite(s, t);
  }

  lemma StoredByte(s: State, b: StoredBlock, k: nat)
    requires Records(s.stored, Pending(s) + s.ring, s.next, s.files.Keys, s.bytes)
    requires Kept(s.files, s.ring, s.bytes) && b in s.ring && !b.dead && k < b.size
    ensures b.storageId in s.files && b.slot in s.bytes && k < |s.bytes[b.slot]|
    ensures b.offset + k < |s.files[b.storageId].data|
    ensures s.files[b.storageId].data[b.offset + k] == s.bytes[b.slot][k]
  {
    var i :| 0 <= i < |s.ring| && s.ring[i] == b;
    assert (Pending(s) + s.ring)[|Pending(s)| + i] == b;
    assert Proper(s.files.Keys, s.bytes, b);
    var data := s.files[b.storageId].data;
    assert data[b.offset + k] == data[b.offset..b.offset + b.size][k];
  }

  lemma ReaderStepKeeps(s: State, t: State)
    requires Inv(s) && t == s.(applied := t.applied, request := t.request) && t.applied <= |t.log|
    requires t.request == s.request || t.request == Waiting
    ensures Inv(t)
  {
    hide PendingKept, Records, Accounted, Logged, Mirrors, Allocated, Kept, Consecutive, WriteUnderWay;
    assert Pending(t) + t.ring == Pending(s) + s.ring;
    SameWrite(s, t);
  }

  lemma StepKeeps(s: State, step: Step)
    requires Inv(s) && Enabled(s, step)
    ensures Inv(Do(s, step))
  {
    hide Inv, CanFree, CanBegin, CanWrite, CanFinish, CanLookUp, CanRead, InLine, DoEvict, DoFree, DoBegin, DoWrite,
         DoFinish, DoLookUp, DoRead, Push, ReadAll;
    match step {
      case Evict => EvictKeeps(s);
      case Free => FreeKeeps(s);
      case Begin(side, b, payload) => BeginKeeps(s, side, b, payload);
      case WriteByte(k) => WriteByteKeeps(s, k);
      case Finish(publish) => FinishKeeps(s, publish);
      case PushDead(side, slot, publish) => PushDeadKeeps(s, side, slot, publish);
      case ApplyMessage => ReaderStepKeeps(s, s.(applied := s.applied + 1));
      case LookUp(slot) => LookUpKeeps(s, slot);
      case ReadByte(k) => ReadByteKeeps(s, k);
      case Answer =>
        assert s.applied <= |s.log| by { AppliedInLog(s); }
        ReaderStepKeeps(s, s.(request := Waiting));
    }
  }

  lemma AppliedInLog(s: State)
    requires Inv(s)
    ensures s.applied <= |s.log|
  {
  }

  // ----- whole runs -----

  ghost predicate Run(s: State, steps: seq<Step>)
    requires Inv(s)
    decreases |steps|
  {
    steps == [] || (Enabled(s, steps[0]) && (StepKeeps(s, steps[0]); Run(Do(s, steps[0]), steps[1..])))
  }

  ghost function After(s: State, steps: seq<Step>): State
    requires Inv(s) && Run(s, steps)
    decreases |steps|
  {
    if steps == [] then s else StepKeeps(s, steps[0]); After(Do(s, steps[0]), steps[1..])
  }

  /**
   For every interleaving of writer and reader steps: when the reader sees
   `slot > first_available` after reading, and the slot has not been evicted and
   stored again since the look-up, each byte it read is the stored byte, and if
   it read the whole location it has exactly the block of that slot.
   */
  lemma {:induction false} ValidatedReadIsExact(s: State, steps: seq<Step>)
    requires Inv(s) && Run(s, steps)
    ensures var t := After(s, steps);
      Accepted(t) && Unrepeated(t) ==> Matches(t.request, t.bytes) && (ReadAll(t.request) ==> Exact(t.request, t.bytes))
    decreases |steps|
  {
    hide Inv, Do, Enabled;
    if steps == [] {
      if Accepted(s) && Unrepeated(s) {
        AcceptedIsExact(s);
      }
    } else {
      StepKeeps(s, steps[0]);
      ValidatedReadIsExact(Do(s, steps[0]), steps[1..]);
    }
  }

  /** The published slot is the oldest of the ring. */
  ghost predicate ShowsOldest(s: State) {
    s.first == if s.ring == [] then None else Some(s.ring[0].slot)
  }

  /** A front push into an empty ring publishes; the other pushes may or may not. */
  ghost predicate Publishes(s: State, step: Step) {
    s.ring == [] ==>
      match step
      case Finish(publish) => publish
      case PushDead(_, _, publish) => publish
      case _ => true
  }

  lemma StepShowsOldest(s: State, step: Step)
    requires Enabled(s, step) && ShowsOldest(s) && Publishes(s, step)
    ensures ShowsOldest(Do(s, step))
  {
    hide Files.Admitted, Files.FillsExactly, Files.StartOf, Files.AfterPop, Files.AfterWrite, Replica, Search;
  }

  ghost predicate AlwaysPublishes(s: State, steps: seq<Step>)
    requires Inv(s) && Run(s, steps)
    decreases |steps|
  {
    steps == [] || (Publishes(s, steps[0]) && (StepKeeps(s, steps[0]); AlwaysPublishes(Do(s, steps[0]), steps[1..])))
  }

  /**
   The re-check rejects no read without need: for every interleaving in which a
   push into an empty ring publishes, a read is accepted exactly when its slot
   lies above the oldest slot of the ring.
   */
  lemma {:induction false} AcceptedIffAboveOldest(s: State, steps: seq<Step>)
    requires Inv(s) && Run(s, steps) && ShowsOldest(s) && AlwaysPublishes(s, steps)
    ensures var t := After(s, steps);
      t.request.Reading? ==> (Accepted(t) <==> t.ring != [] && t.ring[0].slot < t.request.slot)
    decreases |steps|
  {
    hide Inv, Do, Enabled, Publishes;
    if steps != [] {
      StepKeeps(s, steps[0]);
      StepShowsOldest(s, steps[0]);
      AcceptedIffAboveOldest(Do(s, steps[0]), steps[1..]);
    }
  }

  /** An empty store with one empty file per id: where a run can start. */
  ghost function Fresh(sizes: map<nat, nat>): State {
    State(map id | id in sizes :: File(Files.Geometry(sizes[id], 0, 0), Files.Filler(sizes[id])),
          [], None, Idle, [], [], map[], map[], 0, 0, Waiting)
  }

  lemma FreshIsInv(sizes: map<nat, nat>)
    requires forall id :: id in sizes ==> sizes[id] > 0
    ensures Inv(Fresh(sizes))
  {
    var s := Fresh(sizes);
    assert Pending(s) + s.ring == [];
    forall id | id in s.files ensures FileLaidOut(s.files[id], LiveOf([], s.bytes, id)) {
      assert Files.LaidOutAt(s.files[id].geo, [], 0);
    }
  }
}
