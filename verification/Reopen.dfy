/**
 Starting again from what is on disk (src/storage/files.rs, `open`, and
 src/storage/blocks.rs, `get_stored_boundaries`): the ends of every file are
 rebuilt from the records in the database, and the store is as safe as it was,
 whatever the writer was in the middle of when it stopped. A block leaves the
 ring before its record leaves the database, and its record enters the database
 before it enters the ring, so the records found may differ from the ring.
 */
module Reopen {
  import opened Common
  import opened Blocks
  import opened ValidatedRead
  import Files

  /** The ends of a file from its lowest and highest block; an unused file is empty. */
  ghost function Rebuilt(size: nat, id: nat, m: map<nat, Boundaries>): Files.Geometry {
    if id in m then Files.Geometry(size, m[id].min.offset, m[id].max.offset + m[id].max.size)
    else Files.Geometry(size, 0, 0)
  }

  ghost function RecordsOf(found: seq<StoredBlock>): map<Slot, StoredBlock> {
    if found == [] then map[]
    else
      var b := found[|found| - 1];
      RecordsOf(found[..|found| - 1])[b.slot := b]
  }

  /** The store a new process starts from: the files' bytes and the blocks found in the database. */
  ghost function Reopened(files: map<nat, File>, found: seq<StoredBlock>, bytes: map<Slot, Bytes>, m: map<nat, Boundaries>): State {
    State(map id | id in files :: File(Rebuilt(files[id].geo.size, id, m), files[id].data),
          found, if found == [] then None else Some(found[0].slot), Idle, found, [], RecordsOf(found), bytes,
          if found == [] then 0 else found[|found| - 1].slot + 1, 0, Waiting)
  }

  ghost predicate Adjoins(ring: seq<StoredBlock>, side: Files.Side, slot: Slot) {
    ring != [] ==> if side == Files.Back then slot + 1 == ring[0].slot else slot == ring[|ring| - 1].slot + 1
  }

  ghost function WithDead(ring: seq<StoredBlock>, side: Files.Side, slot: Slot): seq<StoredBlock> {
    if side == Files.Back then [DeadBlock(slot)] + ring else ring + [DeadBlock(slot)]
  }

  /**
   What the database may hold when the process stops in state `s`: the ring; or
   also a block that has left the ring but whose record has not been removed; or
   also one whose record has been added but which has not entered the ring.
   */
  ghost predicate MayHold(s: State, found: seq<StoredBlock>) {
    || found == s.ring
    || found == Pending(s) + s.ring
    || (CanFinish(s) && found == DoFinish(s, false).ring)
    || (s.phase == Idle && exists side, slot :: Adjoins(s.ring, side, slot) && found == WithDead(s.ring, side, slot))
  }

  /** Records a store can be rebuilt from: consecutive slots, laid out and intact in their files. */
  ghost predicate Restorable(files: map<nat, File>, found: seq<StoredBlock>, bytes: map<Slot, Bytes>) {
    && Consecutive(found) && (forall i :: 0 <= i < |found| ==> Proper(files.Keys, bytes, found[i]))
    && Allocated(files, found, bytes) && Kept(files, found, bytes)
  }

  /** Records read back from the database exist, and a stored block has bytes. */
  ghost predicate Readable(ring: seq<StoredBlock>) {
    forall i :: 0 <= i < |ring| ==> ring[i].exists_ && (!ring[i].dead ==> ring[i].size > 0)
  }

  // ----- the boundaries are the ends of the live chunks -----

  lemma {:induction false} LiveConcat(a: seq<StoredBlock>, b: seq<StoredBlock>, bytes: map<Slot, Bytes>, id: nat)
    ensures LiveOf(a + b, bytes, id) == LiveOf(a, bytes, id) + LiveOf(b, bytes, id)
  {
    if b == [] {
      assert a + b == a;
    } else {
      var n := |b| - 1;
      assert a + b == a + b[..n] + [b[n]] && b == b[..n] + [b[n]];
      LiveConcat(a, b[..n], bytes, id);
      LiveSnoc(a + b[..n], bytes, id, b[n]);
      LiveSnoc(b[..n], bytes, id, b[n]);
    }
  }

  lemma {:induction false} LiveNone(blocks: seq<StoredBlock>, bytes: map<Slot, Bytes>, id: nat)
    requires forall i :: 0 <= i < |blocks| ==> !OnDisk(blocks[i], id)
    ensures LiveOf(blocks, bytes, id) == []
  {
    if blocks != [] {
      LiveNone(blocks[..|blocks| - 1], bytes, id);
    }
  }

  lemma FirstChunk(ring: seq<StoredBlock>, bytes: map<Slot, Bytes>, id: nat, i: nat)
    requires i < |ring| && OnDisk(ring[i], id) && forall k :: 0 <= k < i ==> !OnDisk(ring[k], id)
    ensures LiveOf(ring, bytes, id) != [] && LiveOf(ring, bytes, id)[0] == ChunkOf(bytes, ring[i])
  {
    hide LiveOf, OnDisk;
    var before, after := ring[..i], ring[i + 1..];
    LiveNone(before, bytes, id);
    assert ring == before + ([ring[i]] + after);
    LiveConcat(before, [ring[i]] + after, bytes, id);
    LiveCons(after, bytes, id, ring[i]);
  }

  lemma LastChunk(ring: seq<StoredBlock>, bytes: map<Slot, Bytes>, id: nat, j: nat)
    requires j < |ring| && OnDisk(ring[j], id) && forall k :: j < k < |ring| ==> !OnDisk(ring[k], id)
    ensures LiveOf(ring, bytes, id) != [] && LiveOf(ring, bytes, id)[|LiveOf(ring, bytes, id)| - 1] == ChunkOf(bytes, ring[j])
  {
    hide LiveOf, OnDisk;
    var before, after := ring[..j], ring[j + 1..];
    assert forall k :: 0 <= k < |after| ==> after[k] == ring[j + 1 + k];
    LiveNone(after, bytes, id);
    assert ring == (before + [ring[j]]) + after;
    LiveConcat(before + [ring[j]], after, bytes, id);
    LiveSnoc(before, bytes, id, ring[j]);
  }

  /** The lowest block of a file is its first live chunk, the highest its last one. */
  lemma BoundsAreEnds(ring: seq<StoredBlock>, bytes: map<Slot, Bytes>, id: nat, m: Boundaries)
    requires Consecutive(ring) && Readable(ring) && Bounds(m, ring, id)
    ensures var live := LiveOf(ring, bytes, id);
      live != [] && live[0] == ChunkOf(bytes, m.min) && live[|live| - 1] == ChunkOf(bytes, m.max)
  {
    hide LiveOf;
    var i :| 0 <= i < |ring| && ring[i] == m.min;
    var j :| 0 <= j < |ring| && ring[j] == m.max;
    forall k | 0 <= k < |ring| && (k < i || j < k) ensures !OnDisk(ring[k], id) {
      assert ring[k] in ring;
    }
    FirstChunk(ring, bytes, id, i);
    LastChunk(ring, bytes, id, j);
  }

  // ----- the files -----

  /** Forgetting the oldest chunk leaves a layout, even before its space is released. */
  lemma WithoutOldest(g: Files.Geometry, live: seq<Files.Chunk>)
    requires Files.LaidOut(g, live) && live != []
    ensures Files.LaidOut(g, live[1..])
  {
    var k: nat :| Files.LaidOutAt(g, live, k);
    assert forall i :: 0 <= i < |live[1..]| ==> live[1..][i] == live[i + 1];
    assert Files.LaidOutAt(g, live[1..], if k == 0 then 0 else k - 1);
  }

  lemma EmptyIsLaidOut(g: Files.Geometry, live: seq<Files.Chunk>)
    requires Files.LaidOut(g, live)
    ensures Files.LaidOut(Files.Geometry(g.size, 0, 0), [])
  {
    assert Files.LaidOutAt(Files.Geometry(g.size, 0, 0), [], 0);
  }

  // ----- whatever the database holds can be restored -----

  lemma RecordsAreProper(s: State)
    requires Records(s.stored, Pending(s) + s.ring, s.next, s.files.Keys, s.bytes)
    ensures forall i :: 0 <= i < |Pending(s) + s.ring| ==> Proper(s.files.Keys, s.bytes, (Pending(s) + s.ring)[i])
    ensures forall i :: 0 <= i < |s.ring| ==> Proper(s.files.Keys, s.bytes, s.ring[i])
  {
    hide Proper, Recorded;
    var all := Pending(s) + s.ring;
    assert forall i :: 0 <= i < |s.ring| ==> s.ring[i] == all[|Pending(s)| + i];
  }

  /** What is left of the files' chunks without the block being released. */
  lemma RingIsAllocated(s: State)
    requires Allocated(s.files, Pending(s) + s.ring, s.bytes)
    ensures Allocated(s.files, s.ring, s.bytes)
  {
    hide LiveOf, Files.LaidOut;
    if s.phase.Freeing? {
      forall id | id in s.files ensures FileLaidOut(s.files[id], LiveOf(s.ring, s.bytes, id)) {
        var all, live := LiveOf(Pending(s) + s.ring, s.bytes, id), LiveOf(s.ring, s.bytes, id);
        assert FileLaidOut(s.files[id], all);
        LiveCons(s.ring, s.bytes, id, s.phase.block);
        if OnDisk(s.phase.block, id) {
          WithoutOldest(s.files[id].geo, all);
          assert all[1..] == live;
        } else {
          assert [] + live == live;
        }
      }
    } else {
      assert Pending(s) + s.ring == s.ring;
    }
  }

  lemma PendingIsRestorable(s: State)
    requires Inv(s)
    ensures Restorable(s.files, Pending(s) + s.ring, s.bytes) && Restorable(s.files, s.ring, s.bytes)
  {
    hide Records, Accounted, Logged, Mirrors, Allocated, Kept, WriteUnderWay, ReadSoFar, Consecutive, Proper;
    RecordsAreProper(s);
    RingIsAllocated(s);
    if !s.phase.Freeing? {
      assert Pending(s) + s.ring == s.ring;
    }
  }

  lemma DeadIsRestorable(s: State, side: Files.Side, slot: Slot)
    requires Restorable(s.files, s.ring, s.bytes) && Adjoins(s.ring, side, slot)
    ensures Restorable(s.files, WithDead(s.ring, side, slot), s.bytes)
  {
    hide Allocated, Kept;
    DropEmpty(s.files, s.ring, s.bytes, DeadBlock(slot));
    PushKept(s.files, s.ring, s.bytes, DeadBlock(slot));
  }

  lemma FinishedIsRestorable(s: State)
    requires Inv(s) && CanFinish(s)
    ensures var t := DoFinish(s, false);
      Restorable(t.files, t.ring, t.bytes) && t.bytes == s.bytes && SameFiles(s.files, t.files)
  {
    hide Inv, Restorable;
    FinishKeeps(s, false);
    PendingIsRestorable(DoFinish(s, false));
  }

  /** The same bytes in files of the same sizes. */
  ghost predicate SameFiles(files: map<nat, File>, files': map<nat, File>) {
    && files.Keys == files'.Keys
    && forall id :: id in files ==> files[id].data == files'[id].data && files[id].geo.size == files'[id].geo.size
  }

  lemma RebuiltIsLaidOut(files: map<nat, File>, found: seq<StoredBlock>, bytes: map<Slot, Bytes>, m: map<nat, Boundaries>, id: nat)
    requires Restorable(files, found, bytes) && Readable(found) && AllBounds(m, found) && id in files
    ensures FileLaidOut(File(Rebuilt(files[id].geo.size, id, m), files[id].data), LiveOf(found, bytes, id))
  {
    hide LiveOf, Files.LaidOut, Consecutive, Kept;
    var g, live := files[id].geo, LiveOf(found, bytes, id);
    assert FileLaidOut(files[id], live);
    if id in m {
      BoundsAreEnds(found, bytes, id, m[id]);
      Files.ReopenKeeps(g, live);
      var j :| 0 <= j < |found| && found[j] == m[id].max;
    } else {
      forall i | 0 <= i < |found| ensures !OnDisk(found[i], id) {
        assert found[i] in found;
      }
      LiveNone(found, bytes, id);
      EmptyIsLaidOut(g, live);
    }
  }

  // ----- the store -----

  lemma {:induction false} RecordsOfFound(found: seq<StoredBlock>)
    requires Consecutive(found)
    ensures forall i :: 0 <= i < |found| ==> Recorded(RecordsOf(found), found[i])
    ensures forall t :: t in RecordsOf(found) ==> RecordsOf(found)[t] in found && RecordsOf(found)[t].slot == t
  {
    if found != [] {
      RecordsOfFound(found[..|found| - 1]);
    }
  }

  lemma ReopenedRecords(files: map<nat, File>, found: seq<StoredBlock>, bytes: map<Slot, Bytes>, m: map<nat, Boundaries>)
    requires Restorable(files, found, bytes)
    ensures var t := Reopened(files, found, bytes, m);
      && Records(t.stored, t.ring, t.next, t.files.Keys, t.bytes) && Accounted(t.stored, t.ring, t.first)
      && Logged(t.stored, t.initial, t.log) && Mirrors(t.initial, t.log, t.ring)
  {
    hide Allocated, Kept, Proper, RecordsOf, Rebuilt;
    var t := Reopened(files, found, bytes, m);
    RecordsOfFound(found);
    assert t.files.Keys == files.Keys;
    forall u | u in t.stored ensures u < t.next {
      var i :| 0 <= i < |found| && found[i] == t.stored[u];
    }
    StartsClean(t);
  }

  lemma StartsClean(t: State)
    requires t.log == [] && t.initial == t.ring && Consecutive(t.ring)
    requires forall i :: 0 <= i < |t.ring| ==> Recorded(t.stored, t.ring[i])
    requires forall u :: u in t.stored ==> t.stored[u] in t.ring
    ensures Accounted(t.stored, t.ring, t.first) && Logged(t.stored, t.initial, t.log) && Mirrors(t.initial, t.log, t.ring)
  {
    assert t.log[..0] == [];
  }

  lemma RestorableIsInv(files: map<nat, File>, found: seq<StoredBlock>, bytes: map<Slot, Bytes>, m: map<nat, Boundaries>)
    requires Restorable(files, found, bytes) && Readable(found) && AllBounds(m, found)
    ensures Inv(Reopened(files, found, bytes, m))
  {
    hide Records, Accounted, Logged, Mirrors, WriteUnderWay, ReadSoFar, Consecutive, AllBounds, Readable, FileLaidOut, Rebuilt, RecordsOf, Proper, Kept;
    var t := Reopened(files, found, bytes, m);
    ReopenedRecords(files, found, bytes, m);
    assert Pending(t) + t.ring == found;
    forall id | id in t.files ensures FileLaidOut(t.files[id], LiveOf(t.ring, t.bytes, id)) {
      RebuiltIsLaidOut(files, found, bytes, m, id);
    }
    SameDataKept(files, t.files, found, bytes);
    NothingUnderWay(t);
    NothingRead(t);
  }

  /**
   After a stop at any point, whatever of the block under way the database
   holds, the reopened store satisfies the invariant of the validated read.
   */
  lemma ReopenedIsInv(s: State, found: seq<StoredBlock>, m: map<nat, Boundaries>)
    requires Inv(s) && MayHold(s, found) && Readable(found) && AllBounds(m, found)
    ensures Inv(Reopened(s.files, found, s.bytes, m))
  {
    hide Inv, Restorable, Readable, AllBounds, CanFinish, DoFinish, Adjoins, WithDead, RecordsOf;
    PendingIsRestorable(s);
    if found == s.ring || found == Pending(s) + s.ring {
      RestorableIsInv(s.files, found, s.bytes, m);
    } else if CanFinish(s) && found == DoFinish(s, false).ring {
      var t := DoFinish(s, false);
      FinishedIsRestorable(s);
      RestorableIsInv(t.files, found, s.bytes, m);
      assert Reopened(t.files, found, s.bytes, m).files == Reopened(s.files, found, s.bytes, m).files;
    } else {
      var side, slot :| Adjoins(s.ring, side, slot) && found == WithDead(s.ring, side, slot);
      DeadIsRestorable(s, side, slot);
      RestorableIsInv(s.files, found, s.bytes, m);
    }
  }

  lemma NothingRead(t: State)
    requires t.request == Waiting
    ensures ReadSoFar(t.request, t.stored, t.ring, t.bytes, t.log)
  {
  }
}
