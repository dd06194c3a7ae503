/**
 The byte-ring allocator (src/storage/files.rs).

 A file is used as a two-ended ring: front writes grow upwards from `head` and
 may wrap to 0, back writes grow downwards from `tail` and may wrap to the end.
 Both wraps leave unused gaps. `Geometry` holds the numbers the program keeps;
 the list of live chunks, oldest first, exists only in the model.
 */
module Files {
  import opened Common
  import opened Circular

  datatype Geometry = Geometry(size: nat, tail: nat, head: nat)

  /** A stored buffer and where it starts. */
  datatype Chunk = Chunk(offset: nat, bytes: seq<Byte>)

  datatype Side = Back | Front

  function End(c: Chunk): nat {
    c.offset + |c.bytes|
  }

  // ----- the program's arithmetic -----

  function FreeSpace(g: Geometry): int {
    if g.head < g.tail then g.tail - g.head
    else if g.size - g.head < g.tail then g.tail else g.size - g.head
  }

  /** Where a write of `len` bytes starts. */
  function StartOf(g: Geometry, side: Side, len: nat): int {
    match side
    case Back => if len <= g.tail then g.tail - len else g.size - len
    case Front => if g.tail < g.head && g.size - g.head < len then 0 else g.head
  }

  /** The write passes the space check and stays inside the file. */
  predicate Admitted(g: Geometry, side: Side, len: nat) {
    len <= FreeSpace(g) && 0 <= StartOf(g, side, len) && StartOf(g, side, len) + len <= g.size
  }

  function AfterWrite(g: Geometry, side: Side, len: nat): (r: Geometry)
    requires Admitted(g, side, len)
  {
    match side
    case Back => g.(tail := StartOf(g, Back, len))
    case Front => g.(head := StartOf(g, Front, len) + len)
  }

  function AfterPop(g: Geometry, side: Side, c: Chunk): (r: Geometry)
    requires g.size > 0
  {
    match side
    case Back => g.(tail := End(c) % g.size)
    case Front => g.(head := c.offset)
  }

  // ----- the layout invariant -----

  ghost predicate InBounds(g: Geometry, live: seq<Chunk>) {
    && g.tail < g.size && g.head <= g.size
    && forall i :: 0 <= i < |live| ==> 0 < |live[i].bytes| && End(live[i]) <= g.size
  }

  /** Chunks `lo`, ..., `hi - 1` lie in `[from, to)`, one after the other. */
  ghost predicate Run(live: seq<Chunk>, lo: nat, hi: nat, from: nat, to: nat)
    requires lo <= hi <= |live|
  {
    && (forall i :: lo <= i < hi ==> from <= live[i].offset && End(live[i]) <= to)
    && (forall i, j :: lo <= i < j < hi ==> End(live[i]) <= live[j].offset)
  }

  /** Nothing is live, or the ends are apart, the oldest `k` chunks run from `tail` to the end of the file, the others from 0 to `head`. */
  ghost predicate LaidOutAt(g: Geometry, live: seq<Chunk>, k: nat) {
    && InBounds(g, live)
    && (live != [] ==> g.head != g.tail)
    && k <= |live|
    && Run(live, 0, k, g.tail, if g.tail <= g.head then g.head else g.size)
    && Run(live, k, |live|, 0, g.head)
    && (g.tail <= g.head ==> k == |live|)
  }

  ghost predicate LaidOut(g: Geometry, live: seq<Chunk>) {
    exists k :: LaidOutAt(g, live, k)
  }

  ghost predicate Apart(a: Chunk, b: Chunk) {
    End(a) <= b.offset || End(b) <= a.offset
  }

  ghost predicate PairwiseApart(live: seq<Chunk>) {
    forall i, j :: 0 <= i < j < |live| ==> Apart(live[i], live[j])
  }

  /** Where a write adds its chunk; empty buffers occupy nothing. */
  ghost function Added(live: seq<Chunk>, side: Side, c: Chunk): seq<Chunk> {
    if c.bytes == [] then live
    else match side
      case Back => [c] + live
      case Front => live + [c]
  }

  /** An admitted write never touches a live chunk. */
  lemma WriteIsApart(g: Geometry, live: seq<Chunk>, side: Side, bytes: seq<Byte>)
    requires LaidOut(g, live) && Admitted(g, side, |bytes|)
    ensures forall i :: 0 <= i < |live| ==> Apart(Chunk(StartOf(g, side, |bytes|), bytes), live[i])
  {
    var k :| LaidOutAt(g, live, k);
  }

  /** The layout survives a write exactly when the write does not make the two ends meet. */
  lemma WriteKeeps(g: Geometry, live: seq<Chunk>, side: Side, bytes: seq<Byte>)
    requires LaidOut(g, live) && Admitted(g, side, |bytes|)
    ensures var g' := AfterWrite(g, side, |bytes|);
      LaidOut(g', Added(live, side, Chunk(StartOf(g, side, |bytes|), bytes))) <==>
        bytes == [] || g'.head != g'.tail
  {
    var g' := AfterWrite(g, side, |bytes|);
    if bytes == [] {
      assert g' == g;
    } else if g'.head != g'.tail {
      var k :| LaidOutAt(g, live, k);
      match side {
        case Front => var _ := FrontWriteKeeps(g, live, bytes, k);
        case Back => var _ := BackWriteKeeps(g, live, bytes, k);
      }
    }
  }

  lemma FrontWriteKeeps(g: Geometry, live: seq<Chunk>, bytes: seq<Byte>, k: nat) returns (k': nat)
    requires LaidOutAt(g, live, k) && Admitted(g, Front, |bytes|) && bytes != []
    requires AfterWrite(g, Front, |bytes|).head != g.tail
    ensures LaidOutAt(AfterWrite(g, Front, |bytes|), live + [Chunk(StartOf(g, Front, |bytes|), bytes)], k')
  {
    var g' := AfterWrite(g, Front, |bytes|);
    var c := Chunk(StartOf(g, Front, |bytes|), bytes);
    if g.tail <= g'.head {
      k' := |live| + 1;
      AppendRun(live, c, 0, g.tail, g'.head);
    } else {
      k' := k;
      assert Run(live, 0, k, g.tail, g.size);
      AppendRun(live, c, k, 0, g'.head);
    }
  }

  lemma AppendRun(live: seq<Chunk>, c: Chunk, lo: nat, from: nat, to: nat)
    requires lo <= |live| && Run(live, lo, |live|, from, c.offset) && from <= c.offset && End(c) <= to
    ensures Run(live + [c], lo, |live| + 1, from, to)
    ensures forall i :: 0 <= i < |live| ==> (live + [c])[i] == live[i]
  {
  }

  /** A run stays a run one place further on. */
  lemma ShiftRun(live: seq<Chunk>, c: Chunk, lo: nat, hi: nat, from: nat, lower: nat, to: nat)
    requires lo <= hi <= |live| && Run(live, lo, hi, from, to) && lower <= from
    ensures Run([c] + live, lo + 1, hi + 1, lower, to)
  {
    var longer := [c] + live;
    assert forall i :: 0 < i < |longer| ==> longer[i] == live[i - 1];
  }

  /** A chunk below a run extends it. */
  lemma PrependRun(live: seq<Chunk>, c: Chunk, hi: nat, from: nat, to: nat)
    requires hi <= |live| && Run(live, 0, hi, from, to) && End(c) <= from && End(c) <= to
    ensures Run([c] + live, 0, hi + 1, c.offset, to)
  {
    var longer := [c] + live;
    assert forall i :: 0 < i < |longer| ==> longer[i] == live[i - 1];
  }

  lemma BackWriteKeeps(g: Geometry, live: seq<Chunk>, bytes: seq<Byte>, k: nat) returns (k': nat)
    requires LaidOutAt(g, live, k) && Admitted(g, Back, |bytes|) && bytes != []
    requires AfterWrite(g, Back, |bytes|).tail != g.head
    ensures LaidOutAt(AfterWrite(g, Back, |bytes|), [Chunk(StartOf(g, Back, |bytes|), bytes)] + live, k')
  {
    var g' := AfterWrite(g, Back, |bytes|);
    var c := Chunk(StartOf(g, Back, |bytes|), bytes);
    if g'.tail <= g.head {
      k' := |live| + 1;
      PrependRun(live, c, |live|, g.tail, g.head);
    } else if g.tail <= g.head {
      k' := 1;
      ShiftRun(live, c, 0, |live|, g.tail, 0, g.head);
    } else {
      k' := k + 1;
      PrependRun(live, c, k, g.tail, g.size);
      ShiftRun(live, c, k, |live|, 0, 0, g.head);
    }
  }

  /** Popping the oldest chunk; the program refuses when `head` sits at the end of the file. */
  lemma PopBackKeeps(g: Geometry, live: seq<Chunk>)
    requires LaidOut(g, live) && live != [] && g.head < g.size
    ensures LaidOut(AfterPop(g, Back, live[0]), live[1..])
  {
    var k :| LaidOutAt(g, live, k);
    TailAfterPop(g, live[0]);
    if k == 0 || g.tail <= g.head || End(live[0]) == g.size {
      PopBackUnwraps(g, live, k, if End(live[0]) == g.size then 0 else End(live[0]));
    } else {
      PopBackWrapped(g, live, k);
    }
  }

  lemma TailAfterPop(g: Geometry, c: Chunk)
    requires g.size > 0 && End(c) <= g.size
    ensures AfterPop(g, Back, c) == g.(tail := if End(c) == g.size then 0 else End(c))
  {
  }

  lemma PopBackUnwraps(g: Geometry, live: seq<Chunk>, k: nat, tail: nat)
    requires LaidOutAt(g, live, k) && live != [] && g.head < g.size
    requires k == 0 || g.tail <= g.head || End(live[0]) == g.size
    requires tail == if End(live[0]) == g.size then 0 else End(live[0])
    ensures LaidOutAt(g.(tail := tail), live[1..], |live| - 1)
  {
    var rest := live[1..];
    assert forall i :: 0 <= i < |rest| ==> rest[i] == live[i + 1];
    assert k == 0 ==> End(live[0]) <= g.head;
    assert rest != [] ==> 0 < |rest[0].bytes|;
    assert End(live[0]) == g.size ==> k <= 1;
  }

  lemma PopBackWrapped(g: Geometry, live: seq<Chunk>, k: nat)
    requires LaidOutAt(g, live, k) && live != []
    requires 0 < k && g.head < g.tail && End(live[0]) < g.size
    ensures LaidOutAt(g.(tail := End(live[0])), live[1..], k - 1)
  {
    assert forall i :: 0 <= i < |live[1..]| ==> live[1..][i] == live[i + 1];
  }

  lemma PopFrontKeeps(g: Geometry, live: seq<Chunk>)
    requires LaidOut(g, live) && live != []
    ensures AfterPop(g, Front, live[|live| - 1]).head < g.size
    ensures LaidOut(AfterPop(g, Front, live[|live| - 1]), live[..|live| - 1])
  {
    var k :| LaidOutAt(g, live, k);
    var _ := PopFrontLaid(g, live, k);
  }

  lemma PopFrontLaid(g: Geometry, live: seq<Chunk>, k: nat) returns (k': nat)
    requires LaidOutAt(g, live, k) && live != []
    ensures LaidOutAt(AfterPop(g, Front, live[|live| - 1]), live[..|live| - 1], k')
  {
    var n := |live| - 1;
    var rest := live[..n];
    assert forall i :: 0 <= i < n ==> rest[i] == live[i];
    assert n > 0 ==> k == n || End(live[n - 1]) <= live[n].offset;
    k' := if g.tail <= live[n].offset then n else k;
  }

  /** The ends rebuilt at startup from the oldest and the newest chunk describe the same layout. */
  lemma ReopenKeeps(g: Geometry, live: seq<Chunk>)
    requires LaidOut(g, live) && live != []
    ensures LaidOut(Geometry(g.size, live[0].offset, End(live[|live| - 1])), live)
  {
    var k :| LaidOutAt(g, live, k);
    var g' := Geometry(g.size, live[0].offset, End(live[|live| - 1]));
    assert LaidOutAt(g', live, if g'.tail <= g'.head then |live| else k);
  }

  // ----- the exact condition for safety -----

  /** Every write the program would accept next avoids every live chunk. */
  ghost predicate NextWriteSafe(g: Geometry, live: seq<Chunk>) {
    forall side, bytes: seq<Byte>, i :: Admitted(g, side, |bytes|) && 0 <= i < |live| ==>
      Apart(Chunk(StartOf(g, side, |bytes|), bytes), live[i])
  }

  function Filler(n: nat): (r: seq<Byte>)
    ensures |r| == n
  {
    seq(n, i => 0)
  }

  /** When the two ends meet around live data, the check reads the full ring as empty. */
  lemma MeetingEndsClobber(g: Geometry, live: seq<Chunk>)
    requires InBounds(g, live) && live != [] && g.head == g.tail
    ensures !NextWriteSafe(g, live)
  {
    var c := live[0];
    if g.head <= c.offset {
      var bytes := Filler(c.offset + 1 - g.head);
      assert Admitted(g, Front, |bytes|) && !Apart(Chunk(StartOf(g, Front, |bytes|), bytes), c);
    } else {
      var bytes := Filler(g.tail - c.offset);
      assert Admitted(g, Back, |bytes|) && !Apart(Chunk(StartOf(g, Back, |bytes|), bytes), c);
    }
  }

  /** A reachable ring is safe to write to if and only if it is empty or its ends are apart. */
  lemma SafeIffEndsApart(g: Geometry, live: seq<Chunk>)
    requires InBounds(g, live) && (g.head != g.tail || live == [] ==> LaidOut(g, live))
    ensures NextWriteSafe(g, live) <==> live == [] || g.head != g.tail
  {
    if live == [] || g.head != g.tail {
      forall side, bytes: seq<Byte>, i | Admitted(g, side, |bytes|) && 0 <= i < |live|
        ensures Apart(Chunk(StartOf(g, side, |bytes|), bytes), live[i])
      {
        WriteIsApart(g, live, side, bytes);
      }
    } else {
      MeetingEndsClobber(g, live);
    }
  }

  /** The writes that make the ends meet, by what a caller can see beforehand. */
  predicate FillsExactly(g: Geometry, side: Side, len: nat) {
    if g.head < g.tail then len == g.tail - g.head
    else match side
      case Front => g.tail < g.head && g.size - g.head < len && len == g.tail
      case Back => g.tail < len && len == g.size - g.head
  }

  lemma EndsMeetIff(g: Geometry, side: Side, len: nat)
    requires g.tail < g.size && g.head <= g.size && 0 < len && Admitted(g, side, len)
    ensures var g' := AfterWrite(g, side, len); g'.head == g'.tail <==> FillsExactly(g, side, len)
  {
  }

  // ----- room, byte by byte -----

  /** Positions from `tail` to `head`, around the end of the file if need be. */
  predicate InUse(g: Geometry, p: nat) {
    if g.tail <= g.head then g.tail <= p < g.head else p < g.head || g.tail <= p
  }

  /** A stretch of unused positions on one side of the two ends. */
  ghost predicate Stretch(g: Geometry, from: nat, to: nat) {
    && from <= to <= g.size && (to <= g.tail || g.head <= from)
    && forall p :: from <= p < to ==> !InUse(g, p)
  }

  /** Some unused stretch holds `len` bytes. */
  ghost predicate HasRoom(g: Geometry, len: nat) {
    exists from: nat, to: nat :: Stretch(g, from, to) && to - from == len
  }

  /** The space check refuses a write exactly when no unused stretch can take it. */
  lemma FreeSpaceIsRoom(g: Geometry, len: nat)
    requires g.tail <= g.size && g.head <= g.size
    ensures len <= FreeSpace(g) <==> HasRoom(g, len)
  {
    if HasRoom(g, len) && len > 0 {
      var from: nat, to: nat :| Stretch(g, from, to) && to - from == len;
      assert !InUse(g, from) && !InUse(g, to - 1);
    } else if len <= FreeSpace(g) {
      if g.head < g.tail || g.tail < len {
        assert Stretch(g, g.head, g.head + len);
      } else {
        assert Stretch(g, 0, len);
      }
    }
  }

  /** Live bytes are in use, so a stretch never holds any. */
  lemma LiveInUse(g: Geometry, live: seq<Chunk>)
    requires LaidOut(g, live)
    ensures forall i, p :: 0 <= i < |live| && live[i].offset <= p < End(live[i]) ==> InUse(g, p)
  {
    var k :| LaidOutAt(g, live, k);
  }

  /** A write goes right next to its end of the ring if that stretch is unused, and otherwise around the end of the file. */
  lemma PlacedAtItsEnd(g: Geometry, side: Side, len: nat)
    requires g.tail < g.size && g.head <= g.size && Admitted(g, side, len)
    ensures Stretch(g, StartOf(g, side, len), StartOf(g, side, len) + len)
    ensures side == Front ==> StartOf(g, side, len) == if Stretch(g, g.head, g.head + len) then g.head else 0
    ensures side == Back ==>
              StartOf(g, side, len) == if len <= g.tail && Stretch(g, g.tail - len, g.tail) then g.tail - len else g.size - len
  {
  }

  /** A write takes its own bytes into use, and the rest of the file beside them when it goes around the end. */
  lemma WriteOccupies(g: Geometry, side: Side, len: nat, p: nat)
    requires g.tail < g.size && g.head <= g.size && Admitted(g, side, len) && p < g.size
    requires 0 < len && !FillsExactly(g, side, len)
    ensures var start := StartOf(g, side, len);
      InUse(AfterWrite(g, side, len), p) <==>
        || InUse(g, p) || start <= p < start + len
        || (side == Front && start != g.head && g.head <= p)
        || (side == Back && start + len != g.tail && p < g.tail)
  {
  }

  /** A pop takes the released chunk out of use. */
  lemma PopReleases(g: Geometry, live: seq<Chunk>, side: Side, p: nat)
    requires LaidOut(g, live) && live != [] && (side == Back ==> g.head < g.size)
    requires var c := if side == Back then live[0] else live[|live| - 1]; c.offset <= p < End(c)
    ensures !InUse(AfterPop(g, side, if side == Back then live[0] else live[|live| - 1]), p)
  {
    var k :| LaidOutAt(g, live, k);
    if side == Back {
      TailAfterPop(g, live[0]);
    }
  }

  // ----- runs over the bytes of the file -----

  datatype Disk = Disk(geo: Geometry, data: seq<Byte>, live: seq<Chunk>)

  datatype Op = Write(side: Side, bytes: seq<Byte>) | Pop(side: Side)

  function Overwrite(data: seq<Byte>, offset: nat, bytes: seq<Byte>): (r: seq<Byte>)
    requires offset + |bytes| <= |data|
    ensures |r| == |data|
  {
    data[..offset] + bytes + data[offset + |bytes|..]
  }

  lemma OverwriteNothing(data: seq<Byte>, offset: nat)
    requires offset <= |data|
    ensures Overwrite(data, offset, []) == data
  {
  }

  lemma OverwriteNext(data: seq<Byte>, offset: nat, bytes: seq<Byte>, i: nat)
    requires offset + |bytes| <= |data| && i < |bytes|
    ensures Overwrite(data, offset, bytes[..i])[offset + i := bytes[i]] == Overwrite(data, offset, bytes[..i + 1])
  {
  }

  ghost predicate Intact(data: seq<Byte>, c: Chunk) {
    End(c) <= |data| && data[c.offset..End(c)] == c.bytes
  }

  ghost predicate SafeDisk(d: Disk) {
    && |d.data| == d.geo.size
    && LaidOut(d.geo, d.live)
    && forall i :: 0 <= i < |d.live| ==> Intact(d.data, d.live[i])
  }

  /** The operation succeeds; a write in addition does not fill the free space to the byte. */
  ghost predicate Succeeds(d: Disk, op: Op) {
    match op
    case Write(side, bytes) => Admitted(d.geo, side, |bytes|) && (bytes != [] ==> !FillsExactly(d.geo, side, |bytes|))
    case Pop(Back) => d.live != [] && d.geo.head < d.geo.size
    case Pop(Front) => d.live != []
  }

  ghost function Perform(d: Disk, op: Op): (r: Disk)
    requires SafeDisk(d) && Succeeds(d, op)
  {
    match op
    case Write(side, bytes) =>
      var start := StartOf(d.geo, side, |bytes|);
      Disk(AfterWrite(d.geo, side, |bytes|), Overwrite(d.data, start, bytes),
           Added(d.live, side, Chunk(start, bytes)))
    case Pop(Back) => Disk(AfterPop(d.geo, Back, d.live[0]), d.data, d.live[1..])
    case Pop(Front) => Disk(AfterPop(d.geo, Front, d.live[|d.live| - 1]), d.data, d.live[..|d.live| - 1])
  }

  lemma OverwriteIntact(data: seq<Byte>, offset: nat, bytes: seq<Byte>, c: Chunk)
    requires offset + |bytes| <= |data|
    ensures Intact(Overwrite(data, offset, bytes), Chunk(offset, bytes))
    ensures Intact(data, c) && Apart(Chunk(offset, bytes), c) ==> Intact(Overwrite(data, offset, bytes), c)
  {
    var r := Overwrite(data, offset, bytes);
    assert r[offset..offset + |bytes|] == bytes;
    if Intact(data, c) && Apart(Chunk(offset, bytes), c) {
      assert forall p :: c.offset <= p < End(c) ==> r[p] == data[p];
      assert r[c.offset..End(c)] == data[c.offset..End(c)];
    }
  }

  lemma SafeBounds(d: Disk)
    requires SafeDisk(d)
    ensures InBounds(d.geo, d.live)
  {
  }

  lemma PerformKeeps(d: Disk, op: Op)
    requires SafeDisk(d) && Succeeds(d, op)
    ensures SafeDisk(Perform(d, op))
  {
    match op {
      case Write(side, bytes) =>
        var start := StartOf(d.geo, side, |bytes|);
        WriteKeeps(d.geo, d.live, side, bytes);
        WriteIsApart(d.geo, d.live, side, bytes);
        if bytes != [] {
          EndsMeetIff(d.geo, side, |bytes|);
        }
        forall c | c in Perform(d, op).live ensures Intact(Perform(d, op).data, c) {
          OverwriteIntact(d.data, start, bytes, c);
        }
      case Pop(Back) => PopBackKeeps(d.geo, d.live);
      case Pop(Front) => PopFrontKeeps(d.geo, d.live);
    }
  }

  /** Every operation of the run succeeds, from `d` on. */
  ghost predicate SuccessfulRun(d: Disk, ops: seq<Op>)
    requires SafeDisk(d)
    decreases |ops|
  {
    ops == [] ||
    (Succeeds(d, ops[0]) && (PerformKeeps(d, ops[0]); SuccessfulRun(Perform(d, ops[0]), ops[1..])))
  }

  ghost function PerformAll(d: Disk, ops: seq<Op>): (r: Disk)
    requires SafeDisk(d) && SuccessfulRun(d, ops)
    decreases |ops|
  {
    if ops == [] then d
    else
      PerformKeeps(d, ops[0]);
      PerformAll(Perform(d, ops[0]), ops[1..])
  }

  /** What the chunks themselves are after a run, without looking at any offset. */
  ghost function Buffers(live: seq<Chunk>): (r: seq<seq<Byte>>)
    ensures |r| == |live| && forall i :: 0 <= i < |r| ==> r[i] == live[i].bytes
  {
    seq(|live|, i requires 0 <= i < |live| => live[i].bytes)
  }

  /** The double-ended queue of buffers that the ring implements. */
  ghost function Deque(bufs: seq<seq<Byte>>, op: Op): seq<seq<Byte>> {
    match op
    case Write(side, bytes) =>
      if bytes == [] then bufs else if side == Back then [bytes] + bufs else bufs + [bytes]
    case Pop(side) =>
      if bufs == [] then bufs else if side == Back then bufs[1..] else bufs[..|bufs| - 1]
  }

  ghost function DequeAll(bufs: seq<seq<Byte>>, ops: seq<Op>): seq<seq<Byte>>
    decreases |ops|
  {
    if ops == [] then bufs else DequeAll(Deque(bufs, ops[0]), ops[1..])
  }

  /**
   Over every successful run the live chunks stay inside the file, pairwise
   apart, each still holds the bytes that were written for it, and together they
   are what a double-ended queue of buffers would hold: nothing is lost,
   reordered or invented.
   */
  lemma {:induction false} AllocatorSafety(d: Disk, ops: seq<Op>)
    requires SafeDisk(d) && SuccessfulRun(d, ops)
    ensures var r := PerformAll(d, ops);
      && SafeDisk(r) && PairwiseApart(r.live)
      && (forall c :: c in r.live ==> End(c) <= r.geo.size && r.data[c.offset..End(c)] == c.bytes)
      && Buffers(r.live) == DequeAll(Buffers(d.live), ops)
    decreases |ops|
  {
    if ops != [] {
      PerformKeeps(d, ops[0]);
      PerformIsDeque(d, ops[0]);
      AllocatorSafety(Perform(d, ops[0]), ops[1..]);
    }
  }

  lemma PerformIsDeque(d: Disk, op: Op)
    requires SafeDisk(d) && Succeeds(d, op)
    ensures Buffers(Perform(d, op).live) == Deque(Buffers(d.live), op)
  {
    hide LaidOut, Intact, AfterWrite, AfterPop, Overwrite, FillsExactly;
    match op {
      case Write(side, bytes) => AddedBuffers(d.live, side, Chunk(StartOf(d.geo, side, |bytes|), bytes));
      case Pop(Back) => assert Buffers(d.live[1..]) == Buffers(d.live)[1..];
      case Pop(Front) => assert Buffers(d.live[..|d.live| - 1]) == Buffers(d.live)[..|d.live| - 1];
    }
  }

  lemma AddedBuffers(live: seq<Chunk>, side: Side, c: Chunk)
    ensures Buffers(Added(live, side, c)) == Deque(Buffers(live), Write(side, c.bytes))
  {
    assert Buffers([c] + live) == [c.bytes] + Buffers(live);
    assert Buffers(live + [c]) == Buffers(live) + [c.bytes];
  }

  /** A run that fills the gap to the byte and then loses its oldest block. */
  lemma ExactFillLosesABlock()
    ensures
      var g := Geometry(4, 2, 4);
      var live := [Chunk(2, [7, 7])];
      && LaidOut(g, live)
      && Admitted(g, Front, 2) && FillsExactly(g, Front, 2)
      && var g' := AfterWrite(g, Front, 2);
      && Admitted(g', Front, 1) && StartOf(g', Front, 1) == 2
      && !Apart(Chunk(2, [9]), live[0])
  {
    hide LaidOut;
    OneChunkAtTheEnd();
  }

  lemma OneChunkAtTheEnd()
    ensures LaidOut(Geometry(4, 2, 4), [Chunk(2, [7, 7])])
  {
    assert LaidOutAt(Geometry(4, 2, 4), [Chunk(2, [7, 7])], 1);
  }

  /** After an accepted write the disk is safe again unless the write filled the gap to the byte. */
  lemma WriteOutcome(d: Disk, r: Disk, side: Side, bytes: seq<Byte>)
    requires SafeDisk(d) && Admitted(d.geo, side, |bytes|)
    requires var start := StartOf(d.geo, side, |bytes|);
      r == Disk(AfterWrite(d.geo, side, |bytes|), Overwrite(d.data, start, bytes), Added(d.live, side, Chunk(start, bytes)))
    ensures SafeDisk(r) <==> bytes == [] || !FillsExactly(d.geo, side, |bytes|)
    ensures Intact(r.data, Chunk(StartOf(d.geo, side, |bytes|), bytes))
  {
    OverwriteIntact(d.data, StartOf(d.geo, side, |bytes|), bytes, Chunk(0, []));
    if bytes == [] || !FillsExactly(d.geo, side, |bytes|) {
      PerformKeeps(d, Write(side, bytes));
    } else {
      EndsMeetIff(d.geo, side, |bytes|);
    }
  }

  lemma FreeSpaceMeansRoom(size: nat, tail: nat, head: nat, len: nat)
    ensures tail <= size && head <= size ==> (len <= FreeSpace(Geometry(size, tail, head)) <==> HasRoom(Geometry(size, tail, head), len))
  {
    if tail <= size && head <= size {
      FreeSpaceIsRoom(Geometry(size, tail, head), len);
    }
  }

  // ----- the program -----

  datatype WriteResult = Written(offset: nat) | NoSpace | Overflow

  class StorageFile {
    const id: nat
    const size: nat
    const newBlocks: bool
    const data: array<Byte>
    var tail: nat
    var head: nat
    ghost var live: seq<Chunk>

    ghost function Model(): Disk
      reads this, data
    {
      Disk(Geometry(size, tail, head), data[..], live)
    }

    ghost predicate Valid()
      reads this, data
    {
      SafeDisk(Model())
    }

    /** An empty file as `open_file` leaves it. */
    constructor (id: nat, size: nat, newBlocks: bool)
      requires size > 0
      ensures Valid() && live == [] && this.id == id && this.size == size && this.newBlocks == newBlocks
      ensures tail == 0 && head == 0
      ensures fresh(data)
    {
      this.id, this.size, this.newBlocks := id, size, newBlocks;
      data := new Byte[size](_ => 0);
      tail, head, live := 0, 0, [];
      new;
      assert LaidOutAt(Geometry(size, 0, 0), [], 0);
    }

    /** Copy `buffer` into the file at `offset`. */
    method Fill(offset: nat, buffer: seq<Byte>)
      requires offset + |buffer| <= data.Length
      modifies data
      ensures data[..] == Overwrite(old(data[..]), offset, buffer)
    {
      hide Overwrite;
      OverwriteNothing(data[..], offset);
      assert buffer[..0] == [];
      for i := 0 to |buffer|
        invariant data[..] == Overwrite(old(data[..]), offset, buffer[..i])
      {
        ghost var before := data[..];
        data[offset + i] := buffer[i];
        assert data[..] == before[offset + i := buffer[i]];
        OverwriteNext(old(data[..]), offset, buffer, i);
      }
      assert buffer[..|buffer|] == buffer;
    }

    method WriteBack(buffer: seq<Byte>) returns (r: WriteResult)
      requires Valid()
      modifies this, data
      ensures r.NoSpace? <==> !HasRoom(old(Model()).geo, |buffer|)
      ensures !r.Overflow?
      ensures r.NoSpace? ==> Model() == old(Model())
      ensures r.Written? ==>
                && Admitted(old(Model()).geo, Back, |buffer|)
                && r.offset == StartOf(old(Model()).geo, Back, |buffer|)
                && Model() == Disk(AfterWrite(old(Model()).geo, Back, |buffer|), Overwrite(old(data[..]), r.offset, buffer),
                                   Added(old(live), Back, Chunk(r.offset, buffer)))
                && (Valid() <==> buffer == [] || !FillsExactly(old(Model()).geo, Back, |buffer|))
                && Intact(data[..], Chunk(r.offset, buffer))
    {
      ghost var before := Model();
      FreeSpaceIsRoom(before.geo, |buffer|);
      if FreeSpace(Geometry(size, tail, head)) < |buffer| {
        return NoSpace;
      }
      tail := if |buffer| <= tail then tail - |buffer| else size - |buffer|;
      Fill(tail, buffer);
      live := Added(live, Back, Chunk(tail, buffer));
      r := Written(tail);
      WriteOutcome(before, Model(), Back, buffer);
    }

    method WriteFront(buffer: seq<Byte>) returns (r: WriteResult)
      requires Valid()
      modifies this, data
      ensures r.NoSpace? <==> !HasRoom(old(Model()).geo, |buffer|)
      ensures r.NoSpace? ==> Model() == old(Model())
      // an empty ring whose ends meet past 0 does not wrap: the write runs over the end of the file
      ensures r.Overflow? <==> HasRoom(old(Model()).geo, |buffer|) && old(head) == old(tail)
                               && size < old(head) + |buffer|
      // the bytes up to the end of the file are written and the head is left beyond it
      ensures r.Overflow? ==> head == old(head) + |buffer| && tail == old(tail) && live == old(live)
      ensures r.Overflow? ==> data[..] == Overwrite(old(data[..]), old(head), buffer[..size - old(head)])
      ensures r.Written? ==>
                && Admitted(old(Model()).geo, Front, |buffer|)
                && r.offset == StartOf(old(Model()).geo, Front, |buffer|)
                && Model() == Disk(AfterWrite(old(Model()).geo, Front, |buffer|), Overwrite(old(data[..]), r.offset, buffer),
                                   Added(old(live), Front, Chunk(r.offset, buffer)))
                && (Valid() <==> buffer == [] || !FillsExactly(old(Model()).geo, Front, |buffer|))
                && Intact(data[..], Chunk(r.offset, buffer))
    {
      ghost var before := Model();
      FreeSpaceIsRoom(before.geo, |buffer|);
      if FreeSpace(Geometry(size, tail, head)) < |buffer| {
        return NoSpace;
      }
      if head > tail && size - head < |buffer| {
        head := 0;
      }
      if size < head + |buffer| {
        Fill(head, buffer[..size - head]);
        head := head + |buffer|;
        return Overflow;
      }
      Fill(head, buffer);
      r := Written(head);
      live := Added(live, Front, Chunk(head, buffer));
      head := head + |buffer|;
      WriteOutcome(before, Model(), Front, buffer);
    }

    /** The file part of `pop_block`: `block` is the oldest or the newest live chunk. */
    method Pop(side: Side, block: Chunk) returns (ok: bool)
      requires Valid() && live != []
      requires block == if side == Back then live[0] else live[|live| - 1]
      modifies this
      ensures ok <==> side == Front || old(head) < size
      ensures ok ==> Valid() && data[..] == old(data[..]) && head < size
      ensures Model().geo == AfterPop(old(Model()).geo, side, block)
      ensures live == if side == Back then old(live)[1..] else old(live)[..|old(live)| - 1]
    {
      hide LaidOut, Intact;
      ghost var d := Model();
      SafeBounds(d);
      if side == Front || head < size {
        PerformKeeps(d, Op.Pop(side));
      }
      match side {
        case Back =>
          live := live[1..];
          tail := (block.offset + |block.bytes|) % size;
        case Front =>
          PopFrontKeeps(d.geo, live);
          live := live[..|live| - 1];
          head := block.offset;
      }
      ok := head < size && tail <= size;
      if ok {
        assert Model() == Perform(d, Op.Pop(side));
      }
    }
  }

  /** A block written and released leaves an empty file whose ends meet at 3; two more bytes fit, but run over its end. */
  method EmptyFileOverflows() returns (r: WriteResult)
    ensures r == Overflow
  {
    hide SafeDisk, Intact, HasRoom, FreeSpace, LaidOut;
    var file := new StorageFile(0, 4, true);
    RoomInFour();
    r := file.WriteFront([7, 7, 7]);
    assert file.Model().geo == Geometry(4, 0, 3) && file.live == [Chunk(0, [7, 7, 7])];
    var _ := file.Pop(Back, Chunk(0, [7, 7, 7]));
    assert file.Model().geo == Geometry(4, 3, 3) && file.live == [];
    r := file.WriteFront([1, 2]);
  }

  lemma RoomInFour()
    ensures HasRoom(Geometry(4, 0, 0), 3) && HasRoom(Geometry(4, 3, 3), 2)
  {
    FreeSpaceIsRoom(Geometry(4, 0, 0), 3);
    FreeSpaceIsRoom(Geometry(4, 3, 3), 2);
  }

  /** All storage files; new blocks go round robin to files with room. */
  class StorageFilesWrite {
    var files: seq<StorageFile>
    var nextFile: nat

    ghost predicate Valid()
      reads this, files, set f <- files :: f.data
    {
      && files != [] && nextFile < |files|
      && (forall i :: 0 <= i < |files| ==> files[i].Valid())
      && (forall i, j :: 0 <= i < j < |files| ==>
            files[i] != files[j] && files[i].data != files[j].data && files[i].id != files[j].id)
    }

    constructor (files: seq<StorageFile>)
      requires files != []
      requires forall i :: 0 <= i < |files| ==> files[i].Valid()
      requires forall i, j :: 0 <= i < j < |files| ==>
                 files[i] != files[j] && files[i].data != files[j].data && files[i].id != files[j].id
      ensures Valid() && this.files == files && nextFile == 0
    {
      this.files, nextFile := files, 0;
    }

    /** The file takes new blocks and has a stretch that can hold this one. */
    ghost predicate Room(i: nat, size: nat)
      requires i < |files|
      reads this, files[i]
    {
      files[i].newBlocks && HasRoom(Geometry(files[i].size, files[i].tail, files[i].head), size)
    }

    predicate Fits(i: nat, size: nat)
      requires i < |files|
      reads this, files[i]
      ensures files[i].tail <= files[i].size && files[i].head <= files[i].size ==> (Fits(i, size) <==> Room(i, size))
    {
      FreeSpaceMeansRoom(files[i].size, files[i].tail, files[i].head, size);
      files[i].newBlocks && size <= FreeSpace(Geometry(files[i].size, files[i].tail, files[i].head))
    }

    /** The first file with room, counting from `nextFile`; None only when no file has room. */
    method FileIndexForNewBlock(size: nat) returns (r: Option<nat>)
      requires Valid()
      modifies this`nextFile
      ensures nextFile < |files|
      ensures r.None? <==> forall i :: 0 <= i < |files| ==> !Room(i, size)
      ensures r.None? ==> nextFile == old(nextFile)
      ensures r.Some? ==> r.value < |files| && Room(r.value, size) && nextFile == Ahead(r.value, 1, |files|)
      ensures r.Some? ==>
                forall i :: 0 <= i < |files| && Room(i, size) ==>
                              Distance(old(nextFile), r.value, |files|) <= Distance(old(nextFile), i, |files|)
    {
      hide SafeDisk;
      InBoundsAll();
      var current := nextFile;
      ghost var tried := 0;
      while true
        invariant 0 <= tried < |files| && nextFile == Ahead(current, tried, |files|)
        invariant forall i :: 0 <= i < |files| && Distance(current, i, |files|) < tried ==> !Room(i, size)
        decreases |files| - tried
      {
        var index := nextFile;
        WrapMod(nextFile + 1, |files|);
        nextFile := (nextFile + 1) % |files|;
        if Fits(index, size) {
          return Some(index);
        }
        tried := tried + 1;
        if nextFile == current {
          return None;
        }
      }
    }

    /** The ends of every file lie inside it. */
    lemma InBoundsAll()
      requires Valid()
      ensures forall i :: 0 <= i < |files| ==> files[i].tail <= files[i].size && files[i].head <= files[i].size
    {
      forall i | 0 <= i < |files| ensures files[i].tail <= files[i].size && files[i].head <= files[i].size {
        SafeBounds(files[i].Model());
      }
    }

    method PushBlock(buffer: seq<Byte>, side: Side) returns (index: Option<nat>, r: WriteResult)
      requires Valid()
      modifies this`nextFile, files, set f <- files :: f.data
      ensures files == old(files)
      ensures index.None? <==> r.NoSpace?
      ensures index.None? <==> forall i :: 0 <= i < |files| ==> !old(Room(i, |buffer|))
      // the nearest file with room in the round
      ensures index.Some? ==> index.value < |files| && old(Room(index.value, |buffer|))
      ensures index.Some? ==>
                forall i :: 0 <= i < |files| && old(Room(i, |buffer|)) ==>
                              Distance(old(nextFile), index.value, |files|) <= Distance(old(nextFile), i, |files|)
      ensures nextFile == if index.Some? then Ahead(index.value, 1, |files|) else old(nextFile)
      ensures forall i :: 0 <= i < |files| && index != Some(i) ==>
                            files[i].Valid() && files[i].Model() == old(files[i].Model())
      ensures r.Written? ==>
                var i := index.value;
                && r.offset == StartOf(old(files[i].Model()).geo, side, |buffer|)
                && Admitted(old(files[i].Model()).geo, side, |buffer|)
                && files[i].Model() == Disk(AfterWrite(old(files[i].Model()).geo, side, |buffer|),
                                            Overwrite(old(files[i].data[..]), r.offset, buffer),
                                            Added(old(files[i].live), side, Chunk(r.offset, buffer)))
                && Intact(files[i].data[..], Chunk(r.offset, buffer))
                && (Valid() <==> buffer == [] || !FillsExactly(old(files[i].Model()).geo, side, |buffer|))
    {
      hide SafeDisk, Admitted, FillsExactly, AfterWrite, Overwrite, StartOf, Intact, Added;
      index := FileIndexForNewBlock(|buffer|);
      assert forall i :: 0 <= i < |files| ==> Room(i, |buffer|) == old(Room(i, |buffer|));
      if index.None? {
        return None, NoSpace;
      }
      var file := files[index.value];
      match side {
        case Back => r := file.WriteBack(buffer);
        case Front => r := file.WriteFront(buffer);
      }
    }

    /** `pop_block`: unknown ids are refused, otherwise the named file gives up its chunk. */
    method PopBlock(id: nat, block: Chunk, side: Side) returns (ok: bool)
      requires Valid()
      requires forall i :: 0 <= i < |files| && files[i].id == id ==>
                 && files[i].live != []
                 && block == if side == Back then files[i].live[0] else files[i].live[|files[i].live| - 1]
      modifies files
      ensures ok ==> Valid()
      ensures ok <==> exists i :: 0 <= i < |files| && files[i].id == id
                                  && (side == Front || old(files[i].head) < files[i].size)
      ensures forall i :: 0 <= i < |files| && files[i].id != id ==> files[i].Model() == old(files[i].Model())
      ensures forall i :: 0 <= i < |files| && files[i].id == id ==>
                files[i].live == if side == Back then old(files[i].live)[1..]
                                 else old(files[i].live)[..|old(files[i].live)| - 1]
    {
      hide SafeDisk;
      for k := 0 to |files|
        invariant Valid()
        invariant forall i :: 0 <= i < k ==> files[i].id != id
        invariant forall i :: 0 <= i < |files| ==> files[i].Model() == old(files[i].Model())
      {
        if files[k].id == id {
          ok := files[k].Pop(side, block);
          return;
        }
      }
      ok := false;
    }
  }
}
