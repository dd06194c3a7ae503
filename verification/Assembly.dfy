/**
 Assembling blocks from a stream of slot messages (src/source/stream.rs).

 Transactions and the block's metadata arrive in any order, mixed with other
 slots' messages. A slot's block is built once, when the metadata is there and
 has counted as many transactions as arrived.
 */
module Assembly {
  import opened Common
  import Memory
  import MemoryRuns
  import MemoryChains

  datatype Meta = Meta(count: nat, parent: Slot, rewardsValid: bool, body: nat)

  datatype Tx = Tx(index: nat, body: nat)

  datatype Assembled = Assembled(meta: Meta, txs: seq<Tx>)

  datatype Status = Created | Confirmed | Dead

  datatype SlotInfo = SlotInfo(status: Status, parent: Option<Slot>, txs: seq<Tx>, meta: Option<Meta>, sealed: bool)

  const NewSlot := SlotInfo(Created, None, [], None, false)

  /** `Transaction` carries None when its metadata does not decode; `Other` covers what is skipped. */
  datatype Update =
    | CreatedBank(slot: Slot, parent: Option<Slot>)
    | SlotDead(slot: Slot)
    | SlotConfirmed(slot: Slot)
    | SlotFinalized(slot: Slot, parent: Option<Slot>)
    | Transaction(slot: Slot, index: nat, body: Option<nat>)
    | BlockMeta(slot: Slot, meta: Meta)
    | Other
    | Unexpected

  datatype Output =
    | Quiet
    | Block(slot: Slot, block: Assembled)
    | Report(slot: Slot, parent: Slot, status: Status)
    | FinalizedSlot(slot: Slot, parent: Slot)
    | Failed

  // ----- transactions in index order -----

  function Insert(tx: Tx, sorted: seq<Tx>): seq<Tx> {
    if sorted == [] || tx.index <= sorted[0].index then [tx] + sorted else [sorted[0]] + Insert(tx, sorted[1..])
  }

  /** `sort_unstable_by_key` on distinct keys. */
  function Sort(txs: seq<Tx>): seq<Tx> {
    if txs == [] then [] else Insert(txs[0], Sort(txs[1..]))
  }

  ghost predicate Ascending(txs: seq<Tx>) {
    forall i, j :: 0 <= i < j < |txs| ==> txs[i].index < txs[j].index
  }

  ghost predicate DistinctIndexes(txs: seq<Tx>) {
    forall i, j :: 0 <= i < j < |txs| ==> txs[i].index != txs[j].index
  }

  lemma {:induction false} InsertMembers(tx: Tx, sorted: seq<Tx>)
    ensures forall x :: x in Insert(tx, sorted) <==> x == tx || x in sorted
    ensures multiset(Insert(tx, sorted)) == multiset(sorted) + multiset{tx}
  {
    if sorted != [] && tx.index > sorted[0].index {
      InsertMembers(tx, sorted[1..]);
      assert sorted == [sorted[0]] + sorted[1..];
    }
  }

  lemma {:induction false} InsertKeeps(tx: Tx, sorted: seq<Tx>)
    requires Ascending(sorted) && forall i :: 0 <= i < |sorted| ==> sorted[i].index != tx.index
    ensures Ascending(Insert(tx, sorted))
  {
    if sorted != [] && tx.index > sorted[0].index {
      InsertKeeps(tx, sorted[1..]);
      InsertMembers(tx, sorted[1..]);
      var more := Insert(tx, sorted[1..]);
      forall i | 0 <= i < |more| ensures sorted[0].index < more[i].index {
        assert more[i] in more;
      }
    }
  }

  lemma {:induction false} SortSorts(txs: seq<Tx>)
    requires DistinctIndexes(txs)
    ensures Ascending(Sort(txs)) && multiset(Sort(txs)) == multiset(txs)
    ensures forall x :: x in Sort(txs) <==> x in txs
  {
    if txs != [] {
      SortSorts(txs[1..]);
      assert txs == [txs[0]] + txs[1..];
      var sorted := Sort(txs[1..]);
      forall i | 0 <= i < |sorted| ensures sorted[i].index != txs[0].index {
        assert sorted[i] in txs[1..];
      }
      InsertKeeps(txs[0], sorted);
      InsertMembers(txs[0], sorted);
    }
  }

  /** Only one ascending arrangement exists, whatever order the transactions came in. */
  lemma {:induction false} AscendingUnique(a: seq<Tx>, b: seq<Tx>)
    requires Ascending(a) && Ascending(b) && forall x :: x in a <==> x in b
    ensures a == b
  {
    if a != [] && b != [] {
      assert a[0] in b && b[0] in a;
      var i :| 0 <= i < |b| && b[i] == a[0];
      var j :| 0 <= j < |a| && a[j] == b[0];
      assert a[0] == b[0];
      assert forall x :: x in a[1..] <==> x in a && x != a[0] by {
        assert a == [a[0]] + a[1..];
        assert forall k :: 0 < k < |a| ==> a[k].index > a[0].index;
      }
      assert forall x :: x in b[1..] <==> x in b && x != b[0] by {
        assert b == [b[0]] + b[1..];
        assert forall k :: 0 < k < |b| ==> b[k].index > b[0].index;
      }
      AscendingUnique(a[1..], b[1..]);
      assert a == [a[0]] + a[1..] && b == [b[0]] + b[1..];
    } else {
      SameEmpty(a, b);
    }
  }

  lemma SameEmpty(a: seq<Tx>, b: seq<Tx>)
    requires forall x :: x in a <==> x in b
    ensures a == [] <==> b == []
  {
    if a != [] {
      assert a[0] in a;
    }
    if b != [] {
      assert b[0] in b;
    }
  }

  // ----- one message -----

  function TryBuild(slot: Slot, info: SlotInfo): (SlotInfo, Output) {
    if info.sealed || info.meta.None? || info.meta.value.count != |info.txs| then (info, Quiet)
    else
      var closed := info.(sealed := true, meta := None);
      if !info.meta.value.rewardsValid then (closed, Failed)
      else (closed.(txs := []), Block(slot, Assembled(info.meta.value, Sort(info.txs))))
  }

  datatype Source = Source(slots: map<Slot, SlotInfo>, first: Option<Slot>)

  function Info(s: Source, slot: Slot): SlotInfo {
    if slot in s.slots then s.slots[slot] else NewSlot
  }

  /** Store a slot's entry, then try to build its block unless the slot is too early. */
  function Settle(s: Source, slot: Slot, info: SlotInfo): (Source, Output) {
    if s.first.Some? && slot <= s.first.value then (s.(slots := s.slots[slot := info]), Quiet)
    else
      var (after, out) := TryBuild(slot, info);
      (s.(slots := s.slots[slot := after]), out)
  }

  function DropBelow(slots: map<Slot, SlotInfo>, slot: Slot): map<Slot, SlotInfo> {
    map k | k in slots && k >= slot :: slots[k]
  }

  /** A status of a slot above the first processed one. */
  function SetStatus(s: Source, slot: Slot, status: Status): (Source, Output) {
    var info := Info(s, slot);
    if info.parent.Some? && info.status == Created then
      (s.(slots := s.slots[slot := info.(status := status)]), Report(slot, info.parent.value, status))
    else if info.parent.Some? && info.status == Confirmed && status == Confirmed then
      (s.(slots := s.slots[slot := info]), Quiet)
    else (s.(slots := s.slots[slot := info]), Failed)
  }

  function CreateBank(s: Source, slot: Slot, parent: Option<Slot>): (Source, Output) {
    var info := Info(s, slot);
    if info.parent.None? && info.status == Created && parent.Some? then
      (s.(slots := s.slots[slot := info.(parent := parent)]), Quiet)
    else (s.(slots := s.slots[slot := info]), Failed)
  }

  predicate TooEarly(s: Source, slot: Slot) {
    s.first.None? || slot <= s.first.value
  }

  function Handle(s: Source, u: Update): (Source, Output) {
    match u
    case CreatedBank(slot, parent) =>
      var t := if s.first.None? then s.(first := Some(slot)) else s;
      if TooEarly(t, slot) then (t, Quiet) else CreateBank(t, slot, parent)
    case SlotDead(slot) => if TooEarly(s, slot) then (s, Quiet) else SetStatus(s, slot, Dead)
    case SlotConfirmed(slot) => if TooEarly(s, slot) then (s, Quiet) else SetStatus(s, slot, Confirmed)
    case SlotFinalized(slot, parent) =>
      if TooEarly(s, slot) then (s, Quiet)
      else (s.(slots := DropBelow(s.slots, slot)), if parent.Some? then FinalizedSlot(slot, parent.value) else Failed)
    case Transaction(slot, index, body) =>
      var info := Info(s, slot);
      if body.None? then (s.(slots := s.slots[slot := info]), Failed)
      else Settle(s, slot, info.(txs := info.txs + [Tx(index, body.value)]))
    case BlockMeta(slot, meta) => Settle(s, slot, Info(s, slot).(meta := Some(meta)))
    case Other => (s, Quiet)
    case Unexpected => (s, Failed)
  }

  /** The source after a run of messages, and what it gave out for each. */
  function Run(s: Source, us: seq<Update>): (Source, seq<Output>) {
    if us == [] then (s, [])
    else
      var n := |us| - 1;
      var (before, outs) := Run(s, us[..n]);
      var (after, out) := Handle(before, us[n]);
      (after, outs + [out])
  }

  // ----- one block per slot, whatever the order -----

  ghost function TxsOf(us: seq<Update>, slot: Slot): seq<Tx> {
    if us == [] then []
    else
      var n := |us| - 1;
      TxsOf(us[..n], slot) +
      if us[n].Transaction? && us[n].slot == slot && us[n].body.Some? then [Tx(us[n].index, us[n].body.value)] else []
  }

  ghost function MetasOf(us: seq<Update>, slot: Slot): seq<Meta> {
    if us == [] then []
    else
      var n := |us| - 1;
      MetasOf(us[..n], slot) + if us[n].BlockMeta? && us[n].slot == slot then [us[n].meta] else []
  }

  ghost function BlocksOf(outs: seq<Output>, slot: Slot): seq<Assembled> {
    if outs == [] then []
    else
      var n := |outs| - 1;
      BlocksOf(outs[..n], slot) + if outs[n].Block? && outs[n].slot == slot then [outs[n].block] else []
  }

  /** The source does not fail, and never prunes the slot. */
  ghost predicate Smooth(s: Source, us: seq<Update>, slot: Slot) {
    && (forall i :: 0 <= i < |us| && us[i].SlotFinalized? ==> us[i].slot <= slot)
    && Failed !in Run(s, us).1
  }

  /** What is known of a slot when `txs` and `metas` have arrived. */
  ghost predicate Gathering(info: SlotInfo, txs: seq<Tx>, metas: seq<Meta>, blocks: seq<Assembled>) {
    if |metas| == 1 && metas[0].count == |txs| then info.sealed && blocks == [Assembled(metas[0], Sort(txs))]
    else !info.sealed && info.txs == txs && blocks == [] && info.meta == if metas == [] then None else Some(metas[0])
  }

  /** Other slots' messages leave a slot alone, unless they prune it. */
  lemma OthersKeep(s: Source, u: Update, slot: Slot)
    requires u.SlotFinalized? ==> u.slot <= slot
    requires u.Other? || u.Unexpected? || u.SlotFinalized? || u.slot != slot
    ensures var (t, out) := Handle(s, u);
            && (slot in t.slots <==> slot in s.slots) && Info(t, slot) == Info(s, slot)
            && !(out.Block? && out.slot == slot) && !(out.Report? && out.slot == slot)
  {
  }

  /** A status message of the slot itself does not touch what has been gathered. */
  lemma StatusKeeps(s: Source, u: Update, slot: Slot)
    requires u.CreatedBank? || u.SlotDead? || u.SlotConfirmed?
    requires u.slot == slot
    ensures var (t, out) := Handle(s, u);
            && Info(t, slot).txs == Info(s, slot).txs && Info(t, slot).meta == Info(s, slot).meta
            && Info(t, slot).sealed == Info(s, slot).sealed && !out.Block?
  {
  }

  /** The first processed slot is set once. */
  lemma FirstStays(s: Source, u: Update)
    requires s.first.Some?
    ensures Handle(s, u).0.first == s.first
  {
  }

  lemma GatherOne(s: Source, u: Update, slot: Slot, txs: seq<Tx>, metas: seq<Meta>, blocks: seq<Assembled>)
    requires (u.Transaction? || u.BlockMeta?) && u.slot == slot && s.first.Some? && s.first.value < slot
    requires Gathering(Info(s, slot), txs, metas, blocks) && Handle(s, u).1 != Failed
    requires var txs1 := if u.Transaction? && u.body.Some? then txs + [Tx(u.index, u.body.value)] else txs;
             var metas1 := if u.BlockMeta? then metas + [u.meta] else metas;
             |metas1| <= 1 && (metas1 != [] ==> |txs1| <= metas1[0].count)
    ensures var txs1 := if u.Transaction? && u.body.Some? then txs + [Tx(u.index, u.body.value)] else txs;
            var metas1 := if u.BlockMeta? then metas + [u.meta] else metas;
            var (t, out) := Handle(s, u);
            Gathering(Info(t, slot), txs1, metas1, blocks + if out.Block? && out.slot == slot then [out.block] else [])
  {
  }

  lemma {:induction false} Gathers(s: Source, us: seq<Update>, slot: Slot)
    requires s.first.Some? && s.first.value < slot && slot !in s.slots && Smooth(s, us, slot)
    requires |MetasOf(us, slot)| <= 1 && (MetasOf(us, slot) != [] ==> |TxsOf(us, slot)| <= MetasOf(us, slot)[0].count)
    ensures var (t, outs) := Run(s, us);
            t.first == s.first
            && Gathering(Info(t, slot), TxsOf(us, slot), MetasOf(us, slot), BlocksOf(outs, slot))
  {
    hide Gathering, Handle;
    if us == [] {
      NothingGathered(s, slot);
    } else {
      var n := |us| - 1;
      var (before, outs) := Run(s, us[..n]);
      SmoothPrefix(s, us, slot);
      Gathers(s, us[..n], slot);
      var out := Handle(before, us[n]).1;
      assert Run(s, us).1 == outs + [out] && (outs + [out])[..n] == outs && |outs| == n by {
        RunLength(s, us[..n]);
      }
      assert out != Failed by {
        assert Run(s, us).1[n] == out;
      }
      FirstStays(before, us[n]);
      GatherNext(before, us[n], slot, TxsOf(us[..n], slot), MetasOf(us[..n], slot), BlocksOf(outs, slot));
    }
  }

  lemma {:induction false} RunLength(s: Source, us: seq<Update>)
    ensures |Run(s, us).1| == |us|
  {
    if us != [] {
      RunLength(s, us[..|us| - 1]);
    }
  }

  lemma NothingGathered(s: Source, slot: Slot)
    requires slot !in s.slots
    ensures Gathering(Info(s, slot), [], [], [])
  {
  }

  lemma SmoothPrefix(s: Source, us: seq<Update>, slot: Slot)
    requires us != [] && Smooth(s, us, slot)
    ensures Smooth(s, us[..|us| - 1], slot)
  {
    hide Handle;
  }

  lemma GatherNext(s: Source, u: Update, slot: Slot, txs: seq<Tx>, metas: seq<Meta>, blocks: seq<Assembled>)
    requires s.first.Some? && s.first.value < slot
    requires Gathering(Info(s, slot), txs, metas, blocks) && Handle(s, u).1 != Failed
    requires u.SlotFinalized? ==> u.slot <= slot
    requires var txs1 := txs + if u.Transaction? && u.slot == slot && u.body.Some? then [Tx(u.index, u.body.value)] else [];
             var metas1 := metas + if u.BlockMeta? && u.slot == slot then [u.meta] else [];
             |metas1| <= 1 && (metas1 != [] ==> |txs1| <= metas1[0].count)
    ensures var txs1 := txs + if u.Transaction? && u.slot == slot && u.body.Some? then [Tx(u.index, u.body.value)] else [];
            var metas1 := metas + if u.BlockMeta? && u.slot == slot then [u.meta] else [];
            var (t, out) := Handle(s, u);
            Gathering(Info(t, slot), txs1, metas1, blocks + if out.Block? && out.slot == slot then [out.block] else [])
  {
    hide Handle, Gathering;
    assert txs + [] == txs && metas + [] == metas && blocks + [] == blocks;
    if u.Other? || u.Unexpected? || u.SlotFinalized? || u.slot != slot {
      OthersKeep(s, u, slot);
    } else if u.Transaction? || u.BlockMeta? {
      GatherOne(s, u, slot, txs, metas, blocks);
    } else {
      StatusKeeps(s, u, slot);
      GatheringSame(Info(s, slot), Info(Handle(s, u).0, slot), txs, metas, blocks);
    }
  }

  lemma GatheringSame(a: SlotInfo, b: SlotInfo, txs: seq<Tx>, metas: seq<Meta>, blocks: seq<Assembled>)
    requires Gathering(a, txs, metas, blocks) && a.txs == b.txs && a.meta == b.meta && a.sealed == b.sealed
    ensures Gathering(b, txs, metas, blocks)
  {
  }

  /**
   Whatever the interleaving, a slot whose metadata counts its transactions
   yields exactly one block, with the transactions in index order; before the
   last of these messages it yields none.
   */
  lemma AssembledOnce(s: Source, us: seq<Update>, slot: Slot, k: nat)
    requires s.first.Some? && s.first.value < slot && slot !in s.slots && Smooth(s, us, slot)
    requires |MetasOf(us, slot)| == 1 && MetasOf(us, slot)[0].count == |TxsOf(us, slot)|
    requires DistinctIndexes(TxsOf(us, slot)) && k <= |us|
    ensures exists txs :: BlocksOf(Run(s, us).1, slot) == [Assembled(MetasOf(us, slot)[0], txs)]
                          && Ascending(txs) && multiset(txs) == multiset(TxsOf(us, slot))
    ensures |TxsOf(us[..k], slot)| + |MetasOf(us[..k], slot)| <= |TxsOf(us, slot)| ==>
              BlocksOf(Run(s, us[..k]).1, slot) == []
  {
    hide Handle;
    Gathers(s, us, slot);
    SortSorts(TxsOf(us, slot));
    assert BlocksOf(Run(s, us).1, slot) == [Assembled(MetasOf(us, slot)[0], Sort(TxsOf(us, slot)))];
    PrefixSmooth(s, us, slot, k);
    PrefixFewer(us, slot, k);
    Gathers(s, us[..k], slot);
  }

  lemma {:induction false} PrefixSmooth(s: Source, us: seq<Update>, slot: Slot, k: nat)
    requires Smooth(s, us, slot) && k <= |us|
    ensures Smooth(s, us[..k], slot)
    decreases |us| - k
  {
    hide Smooth;
    if k == |us| {
      assert us[..k] == us;
    } else {
      PrefixSmooth(s, us, slot, k + 1);
      SmoothPrefix(s, us[..k + 1], slot);
      assert us[..k + 1][..k] == us[..k];
    }
  }

  lemma {:induction false} PrefixFewer(us: seq<Update>, slot: Slot, k: nat)
    requires k <= |us|
    ensures TxsOf(us[..k], slot) <= TxsOf(us, slot) && MetasOf(us[..k], slot) <= MetasOf(us, slot)
    decreases |us|
  {
    if k == |us| {
      assert us[..k] == us;
    } else {
      PrefixFewer(us[..|us| - 1], slot, k);
      assert us[..|us| - 1][..k] == us[..k];
    }
  }

  /** Two streams that deliver the same metadata and transactions for a slot build the same block. */
  lemma OrderIrrelevant(s: Source, us: seq<Update>, t: Source, vs: seq<Update>, slot: Slot)
    requires s.first.Some? && s.first.value < slot && slot !in s.slots && Smooth(s, us, slot)
    requires t.first.Some? && t.first.value < slot && slot !in t.slots && Smooth(t, vs, slot)
    requires |MetasOf(us, slot)| == 1 && MetasOf(us, slot)[0].count == |TxsOf(us, slot)|
    requires MetasOf(vs, slot) == MetasOf(us, slot) && multiset(TxsOf(vs, slot)) == multiset(TxsOf(us, slot))
    requires DistinctIndexes(TxsOf(us, slot)) && DistinctIndexes(TxsOf(vs, slot))
    ensures BlocksOf(Run(s, us).1, slot) == BlocksOf(Run(t, vs).1, slot)
  {
    hide Handle, Smooth;
    var a, b := TxsOf(us, slot), TxsOf(vs, slot);
    SameSize(a, b);
    Gathers(s, us, slot);
    Gathers(t, vs, slot);
    SortSorts(a);
    SortSorts(b);
    forall x ensures x in Sort(a) <==> x in Sort(b) {
      assert x in multiset(a) <==> x in multiset(b);
    }
    AscendingUnique(Sort(a), Sort(b));
  }

  lemma SameSize(a: seq<Tx>, b: seq<Tx>)
    requires multiset(a) == multiset(b)
    ensures |a| == |b|
  {
    assert |multiset(a)| == |a| && |multiset(b)| == |b|;
  }

  // ----- one verdict per slot -----

  ghost function ReportsOf(outs: seq<Output>, slot: Slot): seq<Status> {
    if outs == [] then []
    else
      var n := |outs| - 1;
      ReportsOf(outs[..n], slot) + if outs[n].Report? && outs[n].slot == slot then [outs[n].status] else []
  }

  function Banks(us: seq<Update>, slot: Slot): nat {
    if us == [] then 0
    else Banks(us[..|us| - 1], slot) + if us[|us| - 1].CreatedBank? && us[|us| - 1].slot == slot then 1 else 0
  }

  /** What a slot's entry says about the reports made so far, after `banks` bank messages. */
  ghost predicate Consistent(info: SlotInfo, banks: nat, reports: seq<Status>) {
    && |reports| <= 1 && (forall r :: r in reports ==> r != Created)
    && (banks == 0 ==> info.parent.None? && reports == [])
    && (info.parent.None? ==> info.status == Created)
    && (info.parent.Some? ==> reports == if info.status == Created then [] else [info.status])
  }

  lemma ConsistentStep(s: Source, u: Update, slot: Slot, banks: nat, reports: seq<Status>)
    requires Consistent(Info(s, slot), banks, reports) && Handle(s, u).1 != Failed
    requires u.CreatedBank? && u.slot == slot ==> banks == 0
    ensures var (t, out) := Handle(s, u);
            Consistent(Info(t, slot), banks + if u.CreatedBank? && u.slot == slot then 1 else 0,
                       reports + if out.Report? && out.slot == slot then [out.status] else [])
  {
    assert reports + [] == reports;
  }

  lemma {:induction false} Consistently(s: Source, us: seq<Update>, slot: Slot)
    requires slot !in s.slots && Failed !in Run(s, us).1 && Banks(us, slot) <= 1
    ensures Consistent(Info(Run(s, us).0, slot), Banks(us, slot), ReportsOf(Run(s, us).1, slot))
  {
    hide Handle, Consistent;
    if us == [] {
      NothingReported(s, slot);
    } else {
      var n := |us| - 1;
      var (before, outs) := Run(s, us[..n]);
      var out := Handle(before, us[n]).1;
      RunLength(s, us[..n]);
      assert Run(s, us).1 == outs + [out] && (outs + [out])[..n] == outs;
      assert out != Failed && Failed !in outs by {
        assert Run(s, us).1[n] == out;
      }
      Consistently(s, us[..n], slot);
      ConsistentStep(before, us[n], slot, Banks(us[..n], slot), ReportsOf(outs, slot));
    }
  }

  lemma NothingReported(s: Source, slot: Slot)
    requires slot !in s.slots
    ensures Consistent(Info(s, slot), 0, [])
  {
  }

  lemma {:induction false} ReportedIn(outs: seq<Output>, slot: Slot, i: nat)
    requires i < |outs| && outs[i].Report? && outs[i].slot == slot
    ensures outs[i].status in ReportsOf(outs, slot)
    decreases |outs|
  {
    if i < |outs| - 1 {
      ReportedIn(outs[..|outs| - 1], slot, i);
    }
  }

  /** With one bank per slot, no slot is ever reported both dead and confirmed, pruned or not. */
  lemma NeverBoth(s: Source, us: seq<Update>, i: nat, j: nat)
    requires Failed !in Run(s, us).1
    requires var outs := Run(s, us).1;
             i < |outs| && j < |outs| && outs[i].Report? && outs[j].Report? && outs[i].slot == outs[j].slot
    requires Banks(us, Run(s, us).1[i].slot) <= 1 && Run(s, us).1[i].slot !in s.slots
    ensures Run(s, us).1[i].status == Run(s, us).1[j].status
  {
    hide Handle, Run;
    var outs := Run(s, us).1;
    Consistently(s, us, outs[i].slot);
    ReportedIn(outs, outs[i].slot, i);
    ReportedIn(outs, outs[i].slot, j);
  }

  // ----- the fork resolver is fed within its assertions -----

  /** What the writer tells the fork resolver for each output. */
  function ToEvent(out: Output): MemoryRuns.Event {
    match out
    case Block(slot, block) => MemoryRuns.Seen(slot, Memory.IsBlock(Memory.Block(block.meta.parent, block.meta.body)))
    case Report(slot, _, status) => MemoryRuns.Seen(slot, if status == Dead then Memory.IsDead else Memory.IsConfirmed)
    case _ => MemoryRuns.Popped
  }

  ghost function ToEvents(outs: seq<Output>): seq<MemoryRuns.Event> {
    seq(|outs|, i requires 0 <= i < |outs| => ToEvent(outs[i]))
  }

  predicate Confirms(out: Output) {
    out.Report? && out.status == Confirmed
  }

  /** What the network guarantees: real slots, parents below children, confirmations that rise. */
  ghost predicate Network(outs: seq<Output>) {
    && (forall i :: 0 <= i < |outs| && (outs[i].Block? || outs[i].Report?) ==> outs[i].slot > 0)
    && (forall i :: 0 <= i < |outs| && outs[i].Block? ==> outs[i].block.meta.parent < outs[i].slot)
    && (forall i, j :: 0 <= i < j < |outs| && Confirms(outs[i]) && Confirms(outs[j]) ==> outs[i].slot < outs[j].slot)
  }

  lemma NoCreatedReports(s: Source, u: Update)
    ensures Handle(s, u).1.Report? ==> Handle(s, u).1.status != Created
  {
  }

  lemma {:induction false} NeverCreated(s: Source, us: seq<Update>)
    ensures forall i :: 0 <= i < |Run(s, us).1| && Run(s, us).1[i].Report? ==> Run(s, us).1[i].status != Created
  {
    hide Handle;
    if us != [] {
      var n := |us| - 1;
      NeverCreated(s, us[..n]);
      NoCreatedReports(Run(s, us[..n]).0, us[n]);
    }
  }

  /** So none of the resolver's assertions can fire on what the stream delivers. */
  lemma ResolverIsSafe(first: Option<Slot>, us: seq<Update>)
    requires var outs := Run(Source(map[], first), us).1; Failed !in outs && Network(outs)
    requires forall slot :: Banks(us, slot) <= 1
    ensures MemoryChains.Disciplined(ToEvents(Run(Source(map[], first), us).1))
    ensures MemoryRuns.LegalRun(ToEvents(Run(Source(map[], first), us).1))
  {
    hide Run, Banks, Handle;
    var s := Source(map[], first);
    var outs := Run(s, us).1;
    var events := ToEvents(outs);
    NeverCreated(s, us);
    forall e | e in events ensures MemoryRuns.LegalEvent(e) {
      var i :| 0 <= i < |events| && events[i] == e;
      assert e == ToEvent(outs[i]);
    }
    forall slot | MemoryRuns.Seen(slot, Memory.IsDead) in events && MemoryRuns.Seen(slot, Memory.IsConfirmed) in events
      ensures false
    {
      var i :| 0 <= i < |events| && events[i] == MemoryRuns.Seen(slot, Memory.IsDead);
      var j :| 0 <= j < |events| && events[j] == MemoryRuns.Seen(slot, Memory.IsConfirmed);
      assert events[i] == ToEvent(outs[i]) && events[j] == ToEvent(outs[j]);
      NeverBoth(s, us, i, j);
    }
    assert forall i :: 0 <= i < |events| ==> events[i] == ToEvent(outs[i]);
    MemoryChains.NeverAborts(events);
  }

  // ----- the stream source -----

  lemma Overwrite(slots: map<Slot, SlotInfo>, slot: Slot, a: SlotInfo, b: SlotInfo)
    ensures slots[slot := a][slot := b] == slots[slot := b]
  {
  }

  class StreamSource {
    var slots: map<Slot, SlotInfo>
    var first: Option<Slot>

    function Current(): Source
      reads this
    {
      Source(slots, first)
    }

    constructor ()
      ensures Current() == Source(map[], None)
    {
      slots, first := map[], None;
    }

    /** One message of `poll_next`; `Quiet` means that it goes on to the next message. */
    method Receive(u: Update) returns (out: Output)
      modifies this
      ensures (Current(), out) == Handle(old(Current()), u)
    {
      hide TryBuild;
      ghost var before := slots;
      match u {
        case Other => return Quiet;
        case Unexpected => return Failed;
        case Transaction(slot, index, body) =>
          var info := Entry(slot);
          if body.None? {
            return Failed;
          }
          out := Store(slot, info.(txs := info.txs + [Tx(index, body.value)]));
          Overwrite(before, slot, info, slots[slot]);
        case BlockMeta(slot, meta) =>
          var info := Entry(slot);
          out := Store(slot, info.(meta := Some(meta)));
          Overwrite(before, slot, info, slots[slot]);
        case CreatedBank(slot, parent) =>
          if first.None? {
            first := Some(slot);
          }
          if slot <= first.value {
            return Quiet;
          }
          var info := Entry(slot);
          if info.parent.None? && info.status == Created && parent.Some? {
            slots := slots[slot := info.(parent := parent)];
            Overwrite(before, slot, info, info.(parent := parent));
            return Quiet;
          }
          return Failed;
        case SlotFinalized(slot, parent) =>
          if first.None? || slot <= first.value {
            return Quiet;
          }
          Prune(slot);
          return if parent.Some? then FinalizedSlot(slot, parent.value) else Failed;
        case SlotDead(slot) => out := ReceiveStatus(slot, Dead);
        case SlotConfirmed(slot) => out := ReceiveStatus(slot, Confirmed);
      }
    }

    /** `entry(slot).or_insert_with(..)`. */
    method Entry(slot: Slot) returns (info: SlotInfo)
      modifies this`slots
      ensures info == Info(old(Current()), slot) && slots == old(slots)[slot := info]
    {
      if slot !in slots {
        slots := slots[slot := NewSlot];
      }
      info := slots[slot];
    }

    method Store(slot: Slot, info: SlotInfo) returns (out: Output)
      modifies this`slots
      ensures (Current(), out) == Settle(old(Current()), slot, info)
    {
      hide TryBuild;
      ghost var before := slots;
      slots := slots[slot := info];
      if first.Some? && slot <= first.value {
        return Quiet;
      }
      var (after, built) := TryBuild(slot, info);
      slots := slots[slot := after];
      Overwrite(before, slot, info, after);
      out := built;
    }

    method ReceiveStatus(slot: Slot, status: Status) returns (out: Output)
      requires status != Created
      modifies this`slots
      ensures (Current(), out) == if TooEarly(old(Current()), slot) then (old(Current()), Quiet)
                                  else SetStatus(old(Current()), slot, status)
    {
      if first.None? || slot <= first.value {
        return Quiet;
      }
      ghost var before := slots;
      var info := Entry(slot);
      match (info.parent, info.status) {
        case (Some(parent), Created) =>
          slots := slots[slot := info.(status := status)];
          Overwrite(before, slot, info, info.(status := status));
          return Report(slot, parent, status);
        case (Some(_), Confirmed) => return if status == Confirmed then Quiet else Failed;
        case _ => return Failed;
      }
    }

    /** Drop the lowest entries while they lie below the finalized slot. */
    method Prune(slot: Slot)
      modifies this`slots
      ensures slots == DropBelow(old(slots), slot)
      ensures forall k :: k in slots <==> k in old(slots) && slot <= k
    {
      while slots != map[]
        invariant forall k :: k in slots ==> k in old(slots) && slots[k] == old(slots)[k]
        invariant forall k :: k in old(slots) && k !in slots ==> k < slot
        decreases |slots|
      {
        ghost var least := Least(slots.Keys);
        var lowest :| lowest in slots.Keys && forall k :: k in slots.Keys ==> lowest <= k;
        if lowest >= slot {
          break;
        }
        assert (slots - {lowest}).Keys == slots.Keys - {lowest};
        slots := slots - {lowest};
      }
    }
  }
}
