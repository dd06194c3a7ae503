/**
 `getTransaction` from the index row to the served bytes: the block encoder, the
 index codec and the validated read put together.
 */
module EndToEnd {
  import opened Common
  import opened ValidatedRead
  import BlockCodec
  import Codec
  import Wire

  /** The bytes a reader collected from a part of the block. */
  ghost function Collected(r: Request, from: nat, size: nat): Bytes
    requires r.Reading? && forall k :: from <= k < from + size ==> k in r.got
  {
    seq(size, i requires 0 <= i < size => r.got[from + i])
  }

  /**
   The writer stored the block as the encoder filtered and wrote it; the reader
   decoded a transaction's index row, read its range of the block while the
   writer went on, and saw the slot still above `first_available`; the slot was
   not stored again meanwhile. Every
   transaction the filter lets through has such a row, and what is served for it
   is that transaction.
   */
  lemma ServedTransactionIsExact(
      s: State, steps: seq<Step>, b: BlockCodec.Block, indexVote: bool, tx: BlockCodec.Transaction) returns (i: nat)
    requires Inv(s) && Run(s, steps) && BlockCodec.SizedBlock(b)
    requires tx in b.transactions && (indexVote || !tx.vote) && tx.err != Some([])
    requires var t := After(s, steps);
      && Accepted(t) && Unrepeated(t) && t.request.slot in t.bytes
      && t.bytes[t.request.slot] == Wire.EncodeFields(BlockCodec.BlockFields(BlockCodec.Kept(b, indexVote)))
      && forall o :: o in BlockCodec.OffsetsOf(BlockCodec.Kept(b, indexVote)) ==>
           Codec.Sized(BlockCodec.IndexValue(t.request.slot, o))
    ensures i < |BlockCodec.OffsetsOf(BlockCodec.Kept(b, indexVote))|
    ensures BlockCodec.OffsetsOf(BlockCodec.Kept(b, indexVote))[i].key == tx.key
    ensures var t := After(s, steps);
      var o := BlockCodec.OffsetsOf(BlockCodec.Kept(b, indexVote))[i];
      var row := Codec.DecodeTransaction(Codec.EncodeTransaction(BlockCodec.IndexValue(t.request.slot, o)));
      && row.Some? && row.value.slot == t.request.slot && row.value.err == tx.err && row.value.index == tx.index
      && ((forall k :: row.value.offset <= k < row.value.offset + row.value.size ==> k in t.request.got) ==>
            Collected(t.request, row.value.offset, row.value.size) == tx.protobuf)
  {
    hide Inv, Run, After, Accepted, Unrepeated, Codec.EncodeTransaction, Codec.DecodeTransaction, Wire.EncodeFields, BlockCodec.BlockFields,
         BlockCodec.OffsetsOf, BlockCodec.Retained;
    ValidatedReadIsExact(s, steps);
    var t := After(s, steps);
    var stored := t.bytes[t.request.slot];
    assert stored[0..|stored|] == stored;
    i := BlockCodec.GetTransactionBytes(b, indexVote, t.request.slot, stored, 0, tx);
    var row := Codec.DecodeTransaction(
      Codec.EncodeTransaction(BlockCodec.IndexValue(t.request.slot, BlockCodec.OffsetsOf(BlockCodec.Kept(b, indexVote))[i]))).value;
    if forall k :: row.offset <= k < row.offset + row.size ==> k in t.request.got {
      CollectedIsStored(t.request, stored, row.offset, row.size);
    }
  }

  lemma CollectedIsStored(r: Request, stored: Bytes, from: nat, size: nat)
    requires r.Reading? && from + size <= |stored| == r.block.size
    requires forall k :: from <= k < from + size ==> k in r.got
    requires forall k :: k in r.got && k < r.block.size ==> r.got[k] == stored[k]
    ensures Collected(r, from, size) == stored[from..from + size]
  {
  }
}
