/**
 What a reader remembers of recent blocks (src/storage/read.rs,
 `StorageProcessed`): unconfirmed blocks, and for the last 300 heights the
 signatures and block hashes that lookups use.
 */
module Recent {
  import opened Common

  /** Signatures, block hashes and transaction errors, compared only for equality. */
  type Key = nat

  const MAX_RECENT_BLOCKHASHES: nat := 300

  datatype Block = Block(hash: Key, height: Option<nat>, txs: map<Key, Option<Key>>)

  datatype SignatureStatus = SignatureStatus(slot: Slot, height: nat, err: Option<Key>)

  datatype RecentBlock = RecentBlock(hash: Key, height: nat, txs: map<Key, Option<Key>>)

  type Recents = map<Slot, RecentBlock>

  // ----- the index of the recent blocks -----

  /** Different slots have different hashes and no signature in common. */
  ghost predicate Disjoint(recent: Recents) {
    forall s, t :: s in recent && t in recent && s != t ==> Apart(recent[s], recent[t])
  }

  ghost predicate Apart(a: RecentBlock, b: RecentBlock) {
    a.hash != b.hash && a.txs.Keys !! b.txs.Keys
  }

  ghost predicate Owns(recent: Recents, s: Slot, signature: Key) {
    s in recent && signature in recent[s].txs
  }

  /** `statuses` is exactly the index of all signatures of the recent blocks. */
  ghost predicate StatusIndex(statuses: map<Key, SignatureStatus>, recent: Recents) {
    && (forall k :: k in statuses ==> Owns(recent, statuses[k].slot, k))
    && (forall s, k :: Owns(recent, s, k) ==>
          k in statuses && statuses[k] == SignatureStatus(s, recent[s].height, recent[s].txs[k]))
  }

  /** `heights` is exactly the map from the recent blocks' hashes to their heights. */
  ghost predicate HeightIndex(heights: map<Key, nat>, recent: Recents) {
    && (forall s :: s in recent ==> recent[s].hash in heights && heights[recent[s].hash] == recent[s].height)
    && (forall h :: h in heights ==> exists s :: s in recent && recent[s].hash == h)
  }

  ghost predicate Indexed(statuses: map<Key, SignatureStatus>, heights: map<Key, nat>, recent: Recents) {
    Disjoint(recent) && StatusIndex(statuses, recent) && HeightIndex(heights, recent)
  }

  function ToRecent(block: Block): RecentBlock
    requires block.height.Some?
  {
    RecentBlock(block.hash, block.height.value, block.txs)
  }

  /** One block per slot, and nothing in common with other slots' blocks. */
  ghost predicate Fits(recent: Recents, slot: Slot, block: Block) {
    block.height.Some? ==>
      && (slot in recent ==> recent[slot] == ToRecent(block))
      && (forall s :: s in recent && s != slot ==> Apart(recent[s], ToRecent(block)))
  }

  function NewStatuses(slot: Slot, block: Block): map<Key, SignatureStatus>
    requires block.height.Some?
  {
    map k | k in block.txs :: SignatureStatus(slot, block.height.value, block.txs[k])
  }

  lemma AddIndexed(statuses: map<Key, SignatureStatus>, heights: map<Key, nat>, recent: Recents, slot: Slot, block: Block)
    requires Indexed(statuses, heights, recent) && block.height.Some? && Fits(recent, slot, block)
    ensures Indexed(statuses + NewStatuses(slot, block), heights[block.hash := block.height.value],
                    recent[slot := ToRecent(block)])
  {
    AddStatuses(statuses, recent, slot, block);
    AddHeight(heights, recent, slot, block);
  }

  lemma AddStatuses(statuses: map<Key, SignatureStatus>, recent: Recents, slot: Slot, block: Block)
    requires Disjoint(recent) && StatusIndex(statuses, recent) && block.height.Some? && Fits(recent, slot, block)
    ensures StatusIndex(statuses + NewStatuses(slot, block), recent[slot := ToRecent(block)])
    ensures Disjoint(recent[slot := ToRecent(block)])
  {
    var more := recent[slot := ToRecent(block)];
    forall s, k | Owns(more, s, k)
      ensures var after := statuses + NewStatuses(slot, block);
              k in after && after[k] == SignatureStatus(s, more[s].height, more[s].txs[k])
    {
      if s != slot {
        assert Owns(recent, s, k) && Apart(recent[s], ToRecent(block));
      }
    }
    forall k | k in statuses + NewStatuses(slot, block)
      ensures Owns(more, (statuses + NewStatuses(slot, block))[k].slot, k)
    {
      if k !in block.txs {
        assert Owns(recent, statuses[k].slot, k);
      }
    }
  }

  lemma AddHeight(heights: map<Key, nat>, recent: Recents, slot: Slot, block: Block)
    requires HeightIndex(heights, recent) && block.height.Some? && Fits(recent, slot, block)
    ensures HeightIndex(heights[block.hash := block.height.value], recent[slot := ToRecent(block)])
  {
    var more, after := recent[slot := ToRecent(block)], heights[block.hash := block.height.value];
    forall h | h in after ensures exists s :: s in more && more[s].hash == h {
      if h == block.hash {
        assert more[slot].hash == h;
      } else {
        var s :| s in recent && recent[s].hash == h;
        assert more[s].hash == h;
      }
    }
  }

  lemma RemoveIndexed(statuses: map<Key, SignatureStatus>, heights: map<Key, nat>, recent: Recents, slot: Slot)
    requires Indexed(statuses, heights, recent) && slot in recent
    ensures Indexed(statuses - recent[slot].txs.Keys, heights - {recent[slot].hash}, recent - {slot})
  {
    var b, less := recent[slot], recent - {slot};
    forall s, k | Owns(less, s, k)
      ensures var after := statuses - b.txs.Keys;
              k in after && after[k] == SignatureStatus(s, less[s].height, less[s].txs[k])
    {
      assert Owns(recent, s, k) && Apart(recent[s], b);
    }
    forall k | k in statuses - b.txs.Keys ensures Owns(less, statuses[k].slot, k) {
      assert Owns(recent, statuses[k].slot, k);
    }
    RemoveHeight(heights, recent, slot);
  }

  lemma RemoveHeight(heights: map<Key, nat>, recent: Recents, slot: Slot)
    requires HeightIndex(heights, recent) && Disjoint(recent) && slot in recent
    ensures HeightIndex(heights - {recent[slot].hash}, recent - {slot})
  {
    var b, less := recent[slot], recent - {slot};
    forall s | s in less ensures less[s].hash in heights - {b.hash} {
      assert Apart(recent[s], b);
    }
    forall h | h in heights - {b.hash} ensures exists s :: s in less && less[s].hash == h {
      var s :| s in recent && recent[s].hash == h;
      assert less[s].hash == h;
    }
  }

  // ----- the window -----

  predicate Within(confirmedHeight: nat, block: RecentBlock) {
    confirmedHeight < block.height + MAX_RECENT_BLOCKHASHES
  }

  ghost predicate HeightsRise(recent: Recents) {
    forall s, t :: s in recent && t in recent && s < t ==> recent[s].height < recent[t].height
  }

  /** A slot in the window lies at or below `s`. */
  ghost predicate Kept(recent: Recents, confirmedHeight: nat, s: Slot) {
    exists t :: t in recent && t <= s && Within(confirmedHeight, recent[t])
  }

  /** What the eviction loop leaves: every slot from the first one in the window on. */
  ghost predicate FromFirstWithin(recent: Recents, after: Recents, confirmedHeight: nat) {
    && (forall s :: s in after ==> s in recent && after[s] == recent[s])
    && (forall s :: s in recent ==> (s in after <==> Kept(recent, confirmedHeight, s)))
  }

  /** When heights rise with slots, that is exactly the blocks less than 300 heights below the confirmed one, and those above it. */
  lemma WindowIsExact(recent: Recents, after: Recents, confirmedHeight: nat, s: Slot)
    requires HeightsRise(recent) && FromFirstWithin(recent, after, confirmedHeight)
    ensures s in after <==> s in recent && confirmedHeight - recent[s].height < 300
  {
    if s in after {
      assert Kept(recent, confirmedHeight, s);
      var t :| t in recent && t <= s && Within(confirmedHeight, recent[t]);
      assert recent[t].height <= recent[s].height;
    }
  }

  /** The newest processed block that is not dead. */
  ghost predicate NewestAlive(blocks: map<Slot, Option<Block>>, r: Option<Slot>) {
    if r.None? then forall s :: s in blocks ==> blocks[s].None?
    else && r.value in blocks && blocks[r.value].Some?
         && forall s :: s in blocks && blocks[s].Some? ==> s <= r.value
  }

  /** The processed slot and height follow the newest block that is not dead, or the confirmed slot, and never fall. */
  ghost predicate Raised(blocks: map<Slot, Option<Block>>, confirmedSlot: Slot, confirmedHeight: nat,
                         slot0: Slot, height0: nat, slot: Slot, height: nat) {
    exists r: Option<Slot> :: NewestAlive(blocks, r) &&
      var (s, h) := if r.Some? then (r.value, blocks[r.value].value.height) else (confirmedSlot, Some(confirmedHeight));
      && slot0 <= slot && s <= slot && (slot == slot0 || slot == s)
      && height0 <= height && (h.Some? ==> h.value <= height) && (height == height0 || h == Some(height))
  }

  class StorageProcessed {
    var processedSlot: Slot
    var processedHeight: nat
    var confirmedSlot: Slot
    var confirmedHeight: nat
    var finalizedSlot: Slot
    var finalizedHeight: nat
    var blocks: map<Slot, Option<Block>>
    var statuses: map<Key, SignatureStatus>
    var recent: Recents
    var heights: map<Key, nat>

    ghost predicate Valid()
      reads this
    {
      Indexed(statuses, heights, recent) && confirmedSlot <= processedSlot
    }

    constructor ()
      ensures Valid() && recent == map[] && blocks == map[] && statuses == map[] && heights == map[]
      ensures processedSlot == 0 && confirmedSlot == 0 && finalizedSlot == 0
      ensures processedHeight == 0 && confirmedHeight == 0 && finalizedHeight == 0
    {
      processedSlot, processedHeight, confirmedSlot, confirmedHeight, finalizedSlot, finalizedHeight := 0, 0, 0, 0, 0, 0;
      blocks, statuses, recent, heights := map[], map[], map[], map[];
    }

    /** Remember a block, unless its slot is already known (alive or dead). */
    method AddSignatures(slot: Slot, block: Block)
      requires Indexed(statuses, heights, recent) && Fits(recent, slot, block)
      modifies this`statuses, this`heights, this`recent
      ensures Indexed(statuses, heights, recent)
      ensures recent == if slot !in blocks && block.height.Some? then old(recent)[slot := ToRecent(block)] else old(recent)
    {
      hide Indexed;
      if slot !in blocks && block.height.Some? {
        AddIndexed(statuses, heights, recent, slot, block);
        statuses := statuses + NewStatuses(slot, block);
        recent := recent[slot := ToRecent(block)];
        heights := heights[block.hash := block.height.value];
      }
    }

    /** Forget a recent block with everything that was indexed for it. */
    method Forget(slot: Slot)
      requires Indexed(statuses, heights, recent) && slot in recent
      modifies this`statuses, this`heights, this`recent
      ensures Indexed(statuses, heights, recent) && recent == old(recent) - {slot}
    {
      hide Indexed;
      RemoveIndexed(statuses, heights, recent, slot);
      var block := recent[slot];
      recent, statuses, heights := recent - {slot}, statuses - block.txs.Keys, heights - {block.hash};
    }

    method UpdateProcessed()
      modifies this`processedSlot, this`processedHeight
      ensures Raised(blocks, confirmedSlot, confirmedHeight, old(processedSlot), old(processedHeight), processedSlot, processedHeight)
    {
      var newest := FindNewestAlive();
      if newest.Some? {
        var height := blocks[newest.value].value.height;
        processedSlot := if newest.value > processedSlot then newest.value else processedSlot;
        processedHeight := if height.Some? && height.value > processedHeight then height.value else processedHeight;
      } else {
        processedSlot := if confirmedSlot > processedSlot then confirmedSlot else processedSlot;
        processedHeight := if confirmedHeight > processedHeight then confirmedHeight else processedHeight;
      }
    }

    /** From the highest slot down to the first block that is not dead. */
    method FindNewestAlive() returns (r: Option<Slot>)
      ensures NewestAlive(blocks, r)
    {
      var left := blocks.Keys;
      while left != {}
        invariant left <= blocks.Keys
        invariant forall s :: s in blocks && s !in left ==> blocks[s].None? && forall t :: t in left ==> t < s
        decreases |left|
      {
        ghost var highest := Greatest(left);
        var s :| s in left && forall t :: t in left ==> t <= s;
        if blocks[s].Some? {
          return Some(s);
        }
        left := left - {s};
      }
      return None;
    }

    method AddProcessedBlock(slot: Slot, block: Block)
      requires Valid() && Fits(recent, slot, block)
      modifies this`blocks, this`statuses, this`heights, this`recent, this`processedSlot, this`processedHeight
      ensures Valid()
      ensures Raised(blocks, confirmedSlot, confirmedHeight, old(processedSlot), old(processedHeight), processedSlot, processedHeight)
      ensures recent == if slot !in old(blocks) && block.height.Some? then old(recent)[slot := ToRecent(block)] else old(recent)
      ensures blocks == if slot in old(blocks) then old(blocks) else old(blocks)[slot := Some(block)]
    {
      hide Indexed;
      AddSignatures(slot, block);
      if slot !in blocks {
        blocks := blocks[slot := Some(block)];
      }
      UpdateProcessed();
    }

    /** A dead slot loses its block only if it was known as unconfirmed. */
    method MarkDead(slot: Slot)
      requires Valid()
      modifies this`blocks, this`statuses, this`heights, this`recent, this`processedSlot, this`processedHeight
      ensures Valid()
      ensures Raised(blocks, confirmedSlot, confirmedHeight, old(processedSlot), old(processedHeight), processedSlot, processedHeight)
      ensures recent == if slot in old(blocks) then old(recent) - {slot} else old(recent)
      ensures blocks == old(blocks)[slot := None]
    {
      hide Indexed;
      var known := slot in blocks;
      blocks := blocks[slot := None];
      if known {
        if slot in recent {
          Forget(slot);
        } else {
          assert recent - {slot} == recent;
        }
      }
      UpdateProcessed();
    }

    /** The last confirmed slot moves, older unconfirmed blocks go, and the window follows. */
    method SetConfirmed(slot: Slot, block: Option<Block>)
      requires Valid() && (block.Some? ==> Fits(recent, slot, block.value))
      modifies this`blocks, this`statuses, this`heights, this`recent, this`processedSlot, this`processedHeight,
               this`confirmedSlot, this`confirmedHeight
      ensures Valid() && confirmedSlot == slot
      ensures Raised(blocks, confirmedSlot, confirmedHeight, old(processedSlot), old(processedHeight), processedSlot, processedHeight)
      ensures blocks == map s | s in old(blocks) && s > slot :: old(blocks)[s]
      ensures var known := if block.Some? && slot !in old(blocks) && block.value.height.Some?
                           then old(recent)[slot := ToRecent(block.value)] else old(recent);
              && confirmedHeight == (if slot in known then known[slot].height else old(confirmedHeight))
              && FromFirstWithin(known, recent, confirmedHeight)
    {
      hide Indexed, FromFirstWithin;
      if block.Some? {
        AddSignatures(slot, block.value);
      }
      confirmedSlot := slot;
      confirmedHeight := if slot in recent then recent[slot].height else confirmedHeight;
      DropUnconfirmed(slot);
      UpdateProcessed();
      EvictOld();
    }

    method DropUnconfirmed(slot: Slot)
      modifies this`blocks
      ensures blocks == map s | s in old(blocks) && s > slot :: old(blocks)[s]
    {
      while blocks != map[]
        invariant forall s :: s in blocks ==> s in old(blocks) && blocks[s] == old(blocks)[s]
        invariant forall s :: s in old(blocks) && s !in blocks ==> s <= slot
        decreases |blocks|
      {
        ghost var least := Least(blocks.Keys);
        var first :| first in blocks.Keys && forall s :: s in blocks.Keys ==> first <= s;
        if first > slot {
          break;
        }
        assert (blocks - {first}).Keys == blocks.Keys - {first};
        blocks := blocks - {first};
      }
    }

    method EvictOld()
      requires Indexed(statuses, heights, recent)
      modifies this`statuses, this`heights, this`recent
      ensures Indexed(statuses, heights, recent)
      ensures FromFirstWithin(old(recent), recent, confirmedHeight)
    {
      hide Indexed;
      while recent != map[]
        invariant Indexed(statuses, heights, recent)
        invariant forall s :: s in recent ==> s in old(recent) && recent[s] == old(recent)[s]
        invariant forall s :: s in old(recent) && s !in recent ==>
                    !Within(confirmedHeight, old(recent)[s]) && forall t :: t in recent ==> s < t
        decreases |recent|
      {
        ghost var least := Least(recent.Keys);
        var first :| first in recent.Keys && forall s :: s in recent.Keys ==> first <= s;
        if Within(confirmedHeight, recent[first]) {
          break;
        }
        assert (recent - {first}).Keys == recent.Keys - {first};
        Forget(first);
      }
    }

    /** A finalized slot counts only while its block is remembered. */
    method SetFinalized(slot: Slot)
      requires Valid()
      modifies this`finalizedSlot, this`finalizedHeight
      ensures Valid()
      ensures if slot in recent then finalizedSlot == slot && finalizedHeight == recent[slot].height
              else finalizedSlot == old(finalizedSlot) && finalizedHeight == old(finalizedHeight)
    {
      if slot in recent {
        finalizedSlot, finalizedHeight := slot, recent[slot].height;
      }
    }

    /** `get_signature_status`: found exactly when a recent block holds the signature. */
    method GetSignatureStatus(signature: Key) returns (r: Option<TransactionStatus>)
      requires Valid()
      ensures r.Some? ==> Owns(recent, r.value.slot, signature)
      ensures r.Some? ==> r.value.err == recent[r.value.slot].txs[signature]
      ensures r.Some? ==> var height := recent[r.value.slot].height;
                          && (r.value.confirmations.None? <==> height <= finalizedHeight || confirmedHeight < height)
                          && (r.value.confirmations.Some? ==> r.value.confirmations.value == confirmedHeight - height + 1)
                          && (r.value.level == LevelOf(height, confirmedHeight, finalizedHeight)
                              <==> height <= confirmedHeight || height <= finalizedHeight)
      ensures r.None? ==> forall s :: !Owns(recent, s, signature)
    {
      if signature !in statuses {
        return None;
      }
      var status := statuses[signature];
      assert Owns(recent, status.slot, signature);
      var confirmations := Confirmations(status.height, confirmedHeight, finalizedHeight);
      r := Some(TransactionStatus(status.slot, confirmations, status.err, ReportedLevel(confirmations)));
    }
  }

  // ----- the level of a signature -----

  datatype Level = Processed | Confirmed | Finalized

  datatype TransactionStatus = TransactionStatus(slot: Slot, confirmations: Option<nat>, err: Option<Key>, level: Level)

  /** What a block's height says about it. */
  function LevelOf(height: nat, confirmedHeight: nat, finalizedHeight: nat): Level {
    if height <= finalizedHeight then Finalized else if height <= confirmedHeight then Confirmed else Processed
  }

  function Confirmations(height: nat, confirmedHeight: nat, finalizedHeight: nat): Option<nat> {
    if height > finalizedHeight && height <= confirmedHeight then Some(confirmedHeight - height + 1) else None
  }

  function ReportedLevel(confirmations: Option<nat>): Level {
    match confirmations
    case Some(n) => if n == 0 then Processed else Confirmed
    case None => Finalized
  }

  /** A block that is processed but not confirmed is reported as finalized; every other level is right. */
  lemma LevelIsRightIff(height: nat, confirmedHeight: nat, finalizedHeight: nat)
    ensures ReportedLevel(Confirmations(height, confirmedHeight, finalizedHeight)) == LevelOf(height, confirmedHeight, finalizedHeight)
            <==> height <= confirmedHeight || height <= finalizedHeight
    ensures height > confirmedHeight && height > finalizedHeight ==>
              ReportedLevel(Confirmations(height, confirmedHeight, finalizedHeight)) == Finalized
  {
  }

  lemma {:induction false} Greatest(keys: set<Slot>) returns (greatest: Slot)
    requires keys != {}
    ensures greatest in keys && forall k :: k in keys ==> k <= greatest
    decreases |keys|
  {
    greatest :| greatest in keys;
    var rest := keys - {greatest};
    assert forall k :: k in keys ==> k == greatest || k in rest;
    if rest != {} {
      var other := Greatest(rest);
      if other > greatest {
        greatest := other;
      }
    }
  }
}
