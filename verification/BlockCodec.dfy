/**
 A confirmed block as bytes (src/source/block.rs): the encoder with transaction
 offsets, its declared length, the vote filter, the per-address rows, and what
 `getTransaction` reads back from the file.
 */
module BlockCodec {
  import opened Common
  import opened Wire
  import Varint
  import Codec
  import Files

  /** One mention of an address by a transaction. */
  datatype Mention = Mention(address: nat, status: Codec.Status)

  datatype Transaction = Transaction(
    key: seq<Byte>, vote: bool, err: Option<seq<Byte>>, protobuf: seq<Byte>, index: nat, mentions: seq<Mention>)

  datatype Block = Block(
    previousHash: seq<Byte>, hash: seq<Byte>, parentSlot: Slot, transactions: seq<Transaction>,
    rewards: seq<Reward>, time: Option<int>, height: Option<nat>, partitions: Option<nat>)

  datatype TxOffset = TxOffset(key: seq<Byte>, offset: nat, size: nat, err: Option<seq<Byte>>, index: nat)

  ghost predicate SizedBlock(b: Block) {
    && |b.previousHash| < TWO_32 && |b.hash| < TWO_32 && b.parentSlot < TWO_64
    && (forall i :: 0 <= i < |b.transactions| ==> |b.transactions[i].protobuf| < TWO_64)
    && (forall i :: 0 <= i < |b.rewards| ==> SizedReward(b.rewards[i]))
    && (b.time.Some? ==> -TWO_63 <= b.time.value < TWO_63)
    && (b.height.Some? ==> b.height.value < TWO_64)
    && (b.partitions.Some? ==> b.partitions.value < TWO_64)
  }

  // ----- the fields of a block -----

  /** A message with one number, which is left out when it is zero. */
  function Boxed(value: nat): seq<Field> {
    Opt(value != 0, Number(1, value))
  }

  function TxFields(txs: seq<Transaction>): (r: seq<Field>)
    ensures |r| == |txs|
  {
    seq(|txs|, i requires 0 <= i < |txs| => Bytes(4, txs[i].protobuf))
  }

  function RewardsFields(rewards: seq<Reward>): (r: seq<Field>)
    ensures |r| == |rewards|
  {
    seq(|rewards|, i requires 0 <= i < |rewards| => RewardField(rewards[i]))
  }

  function RewardField(r: Reward): Field {
    Bytes(5, EncodeFields(RewardFields(r)))
  }

  function UnsignedTime(t: Option<int>): nat {
    if t.Some? then ToUnsigned(t.value) else 0
  }

  function HeadFields(b: Block): seq<Field> {
    Opt(b.previousHash != [], Bytes(1, b.previousHash)) +
    (Opt(b.hash != [], Bytes(2, b.hash)) +
     (Opt(b.parentSlot != 0, Number(3, b.parentSlot)) + []))
  }

  function TailFields(b: Block): seq<Field> {
    Opt(b.time.Some?, Bytes(6, EncodeFields(Boxed(UnsignedTime(b.time))))) +
    (Opt(b.height.Some?, Bytes(7, EncodeFields(Boxed(ValueOr(b.height, 0))))) +
     (Opt(b.partitions.Some?, Bytes(8, EncodeFields(Boxed(ValueOr(b.partitions, 0))))) + []))
  }

  /** The block as a list of fields: what any reader of the format must see. */
  function BlockFields(b: Block): seq<Field> {
    HeadFields(b) + TxFields(b.transactions) + RewardsFields(b.rewards) + TailFields(b)
  }

  // ----- the declared length -----

  function TxsLen(txs: seq<Transaction>): nat {
    if txs == [] then 0
    else
      var n := |txs| - 1;
      TxsLen(txs[..n]) + |txs[n].protobuf| + Varint.Len(|txs[n].protobuf|)
  }

  function RewardsLen(rewards: seq<Reward>): nat {
    if rewards == [] then 0
    else
      var n := |rewards| - 1;
      RewardsLen(rewards[..n]) + RewardLen(rewards[n]) + Varint.Len(RewardLen(rewards[n]))
  }

  function BoxedLen(value: nat): nat {
    if value != 0 then NumberLen(1, value) else 0
  }

  function MessageLen(tag: nat, len: nat): nat {
    KeyLen(tag) + Varint.Len(len) + len
  }

  /** `encoded_len`, term by term. */
  function EncodedLen(b: Block): int {
    (if b.previousHash != [] then BytesLen(1, |b.previousHash|) else 0) +
    (if b.hash != [] then BytesLen(2, |b.hash|) else 0) +
    (if b.parentSlot != 0 then NumberLen(3, b.parentSlot) else 0) +
    (KeyLen(4) * |b.transactions| + TxsLen(b.transactions)) +
    (KeyLen(5) * |b.rewards| + RewardsLen(b.rewards)) +
    (if b.time.Some? then MessageLen(6, BoxedLen(ToUnsigned(b.time.value))) else 0) +
    (if b.height.Some? then MessageLen(7, BoxedLen(b.height.value)) else 0) +
    (if b.partitions.Some? then MessageLen(8, BoxedLen(b.partitions.value)) else 0)
  }

  lemma BoxedSize(value: nat)
    requires value < TWO_64
    ensures |EncodeFields(Boxed(value))| == BoxedLen(value) < 100
  {
    EncodedFieldsSize(Boxed(value));
    OptSize(value != 0, Number(1, value), []);
    assert Boxed(value) + [] == Boxed(value);
    hide EncodeFields;
  }

  lemma {:induction false} TxFieldsSize(txs: seq<Transaction>)
    requires forall i :: 0 <= i < |txs| ==> |txs[i].protobuf| < TWO_64
    ensures FieldsSize(TxFields(txs)) == KeyLen(4) * |txs| + TxsLen(txs)
    ensures AllSized(TxFields(txs))
  {
    if txs != [] {
      hide Varint.Len, KeyLen, FieldsSize;
      var n := |txs| - 1;
      TxFieldsSize(txs[..n]);
      assert TxFields(txs) == TxFields(txs[..n]) + [Bytes(4, txs[n].protobuf)];
      FieldsSizeConcat(TxFields(txs[..n]), [Bytes(4, txs[n].protobuf)]);
      OneSize(Bytes(4, txs[n].protobuf));
      assert KeyLen(4) * |txs| == KeyLen(4) * n + KeyLen(4);
    }
  }

  lemma OneSize(f: Field)
    ensures FieldsSize([f]) == FieldSize(f)
  {
    assert [f][1..] == [];
  }

  lemma {:induction false} RewardsFieldsSize(rewards: seq<Reward>)
    requires forall i :: 0 <= i < |rewards| ==> SizedReward(rewards[i])
    ensures FieldsSize(RewardsFields(rewards)) == KeyLen(5) * |rewards| + RewardsLen(rewards)
    ensures AllSized(RewardsFields(rewards))
  {
    hide Varint.Len, KeyLen, FieldsSize, EncodeFields, RewardFields, RewardLen, SizedReward, Sized, AllSized;
    if rewards == [] {
      NothingSize();
    } else {
      var n := |rewards| - 1;
      var last := RewardField(rewards[n]);
      RewardFieldSize(rewards[n]);
      RewardsFieldsSize(rewards[..n]);
      assert RewardsFields(rewards) == RewardsFields(rewards[..n]) + [last];
      FieldsSizeConcat(RewardsFields(rewards[..n]), [last]);
      AllSizedConcat(RewardsFields(rewards[..n]), [last]);
      assert KeyLen(5) * |rewards| == KeyLen(5) * n + KeyLen(5);
    }
  }

  lemma RewardFieldSize(r: Reward)
    requires SizedReward(r)
    ensures FieldsSize([RewardField(r)]) == KeyLen(5) + RewardLen(r) + Varint.Len(RewardLen(r))
    ensures AllSized([RewardField(r)])
  {
    hide Varint.Len, KeyLen, EncodeFields, RewardFields, RewardLen, SizedReward, FieldsSize;
    RewardDeclaredLength(r);
    OneSize(RewardField(r));
  }

  lemma HeadSize(b: Block)
    requires SizedBlock(b)
    ensures AllSized(HeadFields(b))
    ensures FieldsSize(HeadFields(b))
            == (if b.previousHash != [] then BytesLen(1, |b.previousHash|) else 0)
               + (if b.hash != [] then BytesLen(2, |b.hash|) else 0)
               + (if b.parentSlot != 0 then NumberLen(3, b.parentSlot) else 0)
  {
    hide FieldsSize, AllSized, Opt, NumberLen, BytesLen;
    NothingSize();
    ThreeFields(b.previousHash != [], Bytes(1, b.previousHash), b.hash != [], Bytes(2, b.hash),
                b.parentSlot != 0, Number(3, b.parentSlot), []);
  }

  lemma TailSize(b: Block)
    requires SizedBlock(b)
    ensures AllSized(TailFields(b))
    ensures FieldsSize(TailFields(b))
            == (if b.time.Some? then MessageLen(6, BoxedLen(ToUnsigned(b.time.value))) else 0)
               + (if b.height.Some? then MessageLen(7, BoxedLen(b.height.value)) else 0)
               + (if b.partitions.Some? then MessageLen(8, BoxedLen(b.partitions.value)) else 0)
  {
    hide FieldsSize, AllSized, Opt, NumberLen, EncodeFields, BoxedLen, KeyLen, Varint.Len;
    BoxedSize(UnsignedTime(b.time));
    BoxedSize(ValueOr(b.height, 0));
    BoxedSize(ValueOr(b.partitions, 0));
    NothingSize();
    ThreeFields(b.time.Some?, Bytes(6, EncodeFields(Boxed(UnsignedTime(b.time)))),
                b.height.Some?, Bytes(7, EncodeFields(Boxed(ValueOr(b.height, 0)))),
                b.partitions.Some?, Bytes(8, EncodeFields(Boxed(ValueOr(b.partitions, 0)))), []);
  }

  lemma AllSizedConcat(a: seq<Field>, b: seq<Field>)
    requires AllSized(a) && AllSized(b)
    ensures AllSized(a + b)
  {
  }

  /** The length the encoder reserves is exactly what it writes. */
  lemma DeclaredLength(b: Block)
    requires SizedBlock(b)
    ensures |EncodeFields(BlockFields(b))| == EncodedLen(b)
    ensures AllSized(BlockFields(b))
  {
    hide FieldsSize, AllSized, EncodeFields, HeadFields, TxFields, RewardsFields, TailFields;
    HeadSize(b);
    TxFieldsSize(b.transactions);
    RewardsFieldsSize(b.rewards);
    TailSize(b);
    var front := HeadFields(b) + TxFields(b.transactions);
    var most := front + RewardsFields(b.rewards);
    FieldsSizeConcat(HeadFields(b), TxFields(b.transactions));
    FieldsSizeConcat(front, RewardsFields(b.rewards));
    FieldsSizeConcat(most, TailFields(b));
    AllSizedConcat(HeadFields(b), TxFields(b.transactions));
    AllSizedConcat(front, RewardsFields(b.rewards));
    AllSizedConcat(most, TailFields(b));
    EncodedFieldsSize(BlockFields(b));
  }

  /** A reader of the wire format recovers every field of the block, in order. */
  lemma BlockRoundTrip(b: Block)
    requires SizedBlock(b)
    ensures ParseFields(EncodeFields(BlockFields(b))) == Some(BlockFields(b))
  {
    hide EncodeFields, ParseFields, BlockFields;
    DeclaredLength(b);
    FieldsRoundTrip(BlockFields(b));
  }

  // ----- the encoder -----

  ghost predicate OffsetOf(buf: seq<Byte>, o: TxOffset, tx: Transaction) {
    && o.key == tx.key && o.err == tx.err && o.index == tx.index && o.size == |tx.protobuf|
    && o.offset + o.size <= |buf|
    && buf[o.offset..o.offset + o.size] == tx.protobuf
  }

  lemma OffsetOfGrows(buf: seq<Byte>, more: seq<Byte>, o: TxOffset, tx: Transaction)
    requires OffsetOf(buf, o, tx)
    ensures OffsetOf(buf + more, o, tx)
  {
    assert (buf + more)[o.offset..o.offset + o.size] == buf[o.offset..o.offset + o.size];
  }

  method EncodeHead(b: Block) returns (buf: seq<Byte>)
    ensures buf == EncodeFields(HeadFields(b))
  {
    hide EncodeField, EncodeFields, HeadFields;
    buf := [];
    if b.previousHash != [] {
      buf := buf + EncodeField(Bytes(1, b.previousHash));
    }
    if b.hash != [] {
      buf := buf + EncodeField(Bytes(2, b.hash));
    }
    if b.parentSlot != 0 {
      buf := buf + EncodeField(Number(3, b.parentSlot));
    }
    EncodedHead(b);
  }

  lemma EncodedHead(b: Block)
    ensures EncodeFields(HeadFields(b))
            == (if b.previousHash != [] then EncodeField(Bytes(1, b.previousHash)) else [])
               + (if b.hash != [] then EncodeField(Bytes(2, b.hash)) else [])
               + (if b.parentSlot != 0 then EncodeField(Number(3, b.parentSlot)) else [])
  {
    hide EncodeField, EncodeFields, Opt;
    var f1, f2, f3 := Bytes(1, b.previousHash), Bytes(2, b.hash), Number(3, b.parentSlot);
    EncodeNothing();
    OptEncode(b.parentSlot != 0, f3, []);
    OptEncode(b.hash != [], f2, Opt(b.parentSlot != 0, f3) + []);
    OptEncode(b.previousHash != [], f1, Opt(b.hash != [], f2) + (Opt(b.parentSlot != 0, f3) + []));
  }

  lemma OptEncode(present: bool, f: Field, rest: seq<Field>)
    ensures EncodeFields(Opt(present, f) + rest) == (if present then EncodeField(f) else []) + EncodeFields(rest)
  {
    hide EncodeField;
    if present {
      assert ([f] + rest)[1..] == rest;
    } else {
      assert [] + rest == rest;
    }
  }

  lemma EncodeSnoc(fs: seq<Field>, f: Field)
    ensures EncodeFields(fs + [f]) == EncodeFields(fs) + EncodeField(f)
  {
    hide EncodeField;
    EncodeConcat(fs, [f]);
    assert [f][1..] == [];
    assert EncodeField(f) + [] == EncodeField(f);
  }

  /** The key and the length that precede a transaction's bytes. */
  function TxPrefix(tx: Transaction): seq<Byte> {
    Varint.Encode(4 * 8 + 2) + Varint.Encode(|tx.protobuf|)
  }

  /** Where transaction `i` lies when `at` bytes precede the list. */
  function OffsetAt(at: nat, txs: seq<Transaction>, i: nat): TxOffset
    requires i < |txs|
  {
    TxOffset(txs[i].key, at + |EncodeFields(TxFields(txs[..i]))| + |TxPrefix(txs[i])|, |txs[i].protobuf|, txs[i].err, txs[i].index)
  }

  function OffsetsFrom(at: nat, txs: seq<Transaction>): (r: seq<TxOffset>)
    ensures |r| == |txs|
  {
    seq(|txs|, i requires 0 <= i < |txs| => OffsetAt(at, txs, i))
  }

  /** The offsets recorded for the transactions of a block. */
  function OffsetsOf(b: Block): (r: seq<TxOffset>)
    ensures |r| == |b.transactions|
  {
    OffsetsFrom(|EncodeFields(HeadFields(b))|, b.transactions)
  }

  method EncodeTransactions(head: seq<Byte>, txs: seq<Transaction>) returns (buf: seq<Byte>, offsets: seq<TxOffset>)
    ensures buf == head + EncodeFields(TxFields(txs))
    ensures offsets == OffsetsFrom(|head|, txs)
  {
    hide Varint.Encode, EncodeFields, TxFields;
    TxFieldsStart(txs);
    buf, offsets := head, [];
    for i := 0 to |txs|
      invariant buf == head + EncodeFields(TxFields(txs[..i]))
      invariant offsets == OffsetsFrom(|head|, txs)[..i]
    {
      ghost var before := buf;
      var tx := txs[i];
      buf := buf + Varint.Encode(4 * 8 + 2);
      buf := buf + Varint.Encode(|tx.protobuf|);
      assert buf == before + TxPrefix(tx);
      var offset := |buf|;
      buf := buf + tx.protobuf;
      offsets := offsets + [TxOffset(tx.key, offset, |tx.protobuf|, tx.err, tx.index)];
      assert buf == before + EncodeField(Bytes(4, tx.protobuf));
      TxFieldsStep(txs, i);
    }
    assert txs[..|txs|] == txs;
  }

  /** The recorded place of a transaction holds its bytes, whatever follows the list. */
  lemma OffsetIsExact(head: seq<Byte>, txs: seq<Transaction>, i: nat, more: seq<Byte>)
    requires i < |txs|
    ensures OffsetOf(head + EncodeFields(TxFields(txs)) + more, OffsetAt(|head|, txs, i), txs[i])
  {
    hide EncodeFields, TxFields, OffsetOf, TxPrefix;
    var tx := txs[i];
    var before, prefix := EncodeFields(TxFields(txs[..i])), TxPrefix(tx);
    var rest := EncodeFields(TxFields(txs[i + 1..]));
    TxFieldsStep(txs, i);
    TxFieldsSplit(txs, i + 1);
    TxField(tx);
    Regroup(head, before, prefix, tx.protobuf, rest, more);
    OffsetOfLast(head + before + prefix, OffsetAt(|head|, txs, i), tx);
    OffsetOfGrows(head + before + prefix + tx.protobuf, rest + more, OffsetAt(|head|, txs, i), tx);
  }

  lemma TxField(tx: Transaction)
    ensures EncodeField(Bytes(4, tx.protobuf)) == TxPrefix(tx) + tx.protobuf
  {
    hide Varint.Encode;
  }

  lemma Regroup(a: seq<Byte>, b: seq<Byte>, c: seq<Byte>, d: seq<Byte>, e: seq<Byte>, f: seq<Byte>)
    ensures a + (b + (c + d) + e) + f == a + b + c + d + (e + f)
  {
  }

  lemma TxFieldsSplit(txs: seq<Transaction>, k: nat)
    requires k <= |txs|
    ensures EncodeFields(TxFields(txs)) == EncodeFields(TxFields(txs[..k])) + EncodeFields(TxFields(txs[k..]))
  {
    hide EncodeFields;
    assert TxFields(txs) == TxFields(txs[..k]) + TxFields(txs[k..]);
    EncodeConcat(TxFields(txs[..k]), TxFields(txs[k..]));
  }

  /** Each offset recorded for a block slices its transaction out of the encoded block. */
  lemma OffsetsAreExact(b: Block, i: nat)
    requires SizedBlock(b) && i < |b.transactions|
    ensures OffsetOf(EncodeFields(BlockFields(b)), OffsetsOf(b)[i], b.transactions[i])
  {
    hide EncodeFields, HeadFields, TxFields, RewardsFields, TailFields, OffsetOf, OffsetAt;
    EncodedParts(b);
    var head, txs := EncodeFields(HeadFields(b)), EncodeFields(TxFields(b.transactions));
    var rewards, tail := EncodeFields(RewardsFields(b.rewards)), EncodeFields(TailFields(b));
    OffsetIsExact(head, b.transactions, i, rewards + tail);
    assert head + txs + rewards + tail == head + txs + (rewards + tail);
  }

  lemma OffsetOfLast(keyed: seq<Byte>, o: TxOffset, tx: Transaction)
    requires o == TxOffset(tx.key, |keyed|, |tx.protobuf|, tx.err, tx.index)
    ensures OffsetOf(keyed + tx.protobuf, o, tx)
  {
  }

  lemma TxFieldsStart(txs: seq<Transaction>)
    ensures EncodeFields(TxFields(txs[..0])) == []
  {
    assert TxFields(txs[..0]) == [];
  }

  lemma TxFieldsStep(txs: seq<Transaction>, i: nat)
    requires i < |txs|
    ensures EncodeFields(TxFields(txs[..i + 1]))
            == EncodeFields(TxFields(txs[..i])) + EncodeField(Bytes(4, txs[i].protobuf))
  {
    hide EncodeField, EncodeFields;
    assert TxFields(txs[..i + 1]) == TxFields(txs[..i]) + [Bytes(4, txs[i].protobuf)];
    EncodeSnoc(TxFields(txs[..i]), Bytes(4, txs[i].protobuf));
  }

  method EncodeRewards(head: seq<Byte>, rewards: seq<Reward>) returns (buf: seq<Byte>)
    ensures buf == head + EncodeFields(RewardsFields(rewards))
  {
    hide EncodeField, EncodeFields, RewardField, RewardsFields;
    RewardsFieldsStart(rewards);
    buf := head;
    for i := 0 to |rewards|
      invariant buf == head + EncodeFields(RewardsFields(rewards[..i]))
    {
      buf := buf + EncodeField(RewardField(rewards[i]));
      RewardsFieldsStep(rewards, i);
    }
    assert rewards[..|rewards|] == rewards;
  }

  lemma RewardsFieldsStart(rewards: seq<Reward>)
    ensures EncodeFields(RewardsFields(rewards[..0])) == []
  {
    assert RewardsFields(rewards[..0]) == [];
  }

  lemma RewardsFieldsStep(rewards: seq<Reward>, i: nat)
    requires i < |rewards|
    ensures EncodeFields(RewardsFields(rewards[..i + 1]))
            == EncodeFields(RewardsFields(rewards[..i])) + EncodeField(RewardField(rewards[i]))
  {
    hide EncodeField, EncodeFields, RewardField;
    assert RewardsFields(rewards[..i + 1]) == RewardsFields(rewards[..i]) + [RewardField(rewards[i])];
    EncodeSnoc(RewardsFields(rewards[..i]), RewardField(rewards[i]));
  }

  /** `encode_with_tx_offsets`: the block's fields, and for each transaction where its bytes lie. */
  method EncodeWithTxOffsets(b: Block) returns (buf: seq<Byte>, offsets: seq<TxOffset>)
    requires SizedBlock(b)
    ensures buf == EncodeFields(BlockFields(b)) && |buf| == EncodedLen(b)
    ensures offsets == OffsetsOf(b)
    ensures forall i :: 0 <= i < |offsets| ==> OffsetOf(buf, offsets[i], b.transactions[i])
  {
    hide EncodeField, EncodeFields, HeadFields, TxFields, RewardsFields, TailFields, BlockFields, EncodedLen, OffsetOf, OffsetsFrom, SizedBlock;
    DeclaredLength(b);
    buf := EncodeHead(b);
    buf, offsets := EncodeTransactions(buf, b.transactions);
    buf := EncodeRewards(buf, b.rewards);
    buf := EncodeTail(buf, b);
    EncodedParts(b);
    forall i | 0 <= i < |offsets| ensures OffsetOf(buf, offsets[i], b.transactions[i]) {
      OffsetsAreExact(b, i);
    }
  }

  method EncodeTail(buf0: seq<Byte>, b: Block) returns (buf: seq<Byte>)
    requires SizedBlock(b)
    ensures buf == buf0 + EncodeFields(TailFields(b))
  {
    hide EncodeField, EncodeFields, TailFields;
    buf := buf0;
    if b.time.Some? {
      buf := buf + EncodeField(Bytes(6, EncodeFields(Boxed(ToUnsigned(b.time.value)))));
    }
    if b.height.Some? {
      buf := buf + EncodeField(Bytes(7, EncodeFields(Boxed(b.height.value))));
    }
    if b.partitions.Some? {
      buf := buf + EncodeField(Bytes(8, EncodeFields(Boxed(b.partitions.value))));
    }
    EncodedTail(b);
  }

  lemma EncodedTail(b: Block)
    requires SizedBlock(b)
    ensures EncodeFields(TailFields(b))
            == (if b.time.Some? then EncodeField(Bytes(6, EncodeFields(Boxed(ToUnsigned(b.time.value))))) else [])
               + (if b.height.Some? then EncodeField(Bytes(7, EncodeFields(Boxed(b.height.value)))) else [])
               + (if b.partitions.Some? then EncodeField(Bytes(8, EncodeFields(Boxed(b.partitions.value)))) else [])
  {
    hide EncodeField, EncodeFields, Opt;
    var f6 := Bytes(6, EncodeFields(Boxed(UnsignedTime(b.time))));
    var f7 := Bytes(7, EncodeFields(Boxed(ValueOr(b.height, 0))));
    var f8 := Bytes(8, EncodeFields(Boxed(ValueOr(b.partitions, 0))));
    EncodeNothing();
    OptEncode(b.partitions.Some?, f8, []);
    OptEncode(b.height.Some?, f7, Opt(b.partitions.Some?, f8) + []);
    OptEncode(b.time.Some?, f6, Opt(b.height.Some?, f7) + (Opt(b.partitions.Some?, f8) + []));
  }

  lemma EncodeNothing()
    ensures EncodeFields([]) == []
  {
  }

  lemma EncodedParts(b: Block)
    requires SizedBlock(b)
    ensures EncodeFields(BlockFields(b))
            == EncodeFields(HeadFields(b)) + EncodeFields(TxFields(b.transactions))
               + EncodeFields(RewardsFields(b.rewards)) + EncodeFields(TailFields(b))
  {
    hide EncodeFields, HeadFields, TxFields, RewardsFields, TailFields;
    var front := HeadFields(b) + TxFields(b.transactions);
    EncodeConcat(HeadFields(b), TxFields(b.transactions));
    EncodeConcat(front, RewardsFields(b.rewards));
    EncodeConcat(front + RewardsFields(b.rewards), TailFields(b));
  }

  // ----- the vote filter -----

  function Retained(txs: seq<Transaction>, indexVote: bool): seq<Transaction> {
    if txs == [] then []
    else
      var n := |txs| - 1;
      Retained(txs[..n], indexVote) + if indexVote || !txs[n].vote then [txs[n]] else []
  }

  /** What the filter keeps: the transactions that may stay, each once, in order. */
  lemma {:induction false} RetainedKeeps(txs: seq<Transaction>, indexVote: bool)
    ensures forall tx :: tx in Retained(txs, indexVote) <==> tx in txs && (indexVote || !tx.vote)
    ensures Ascending(txs) ==> Ascending(Retained(txs, indexVote))
    ensures indexVote ==> Retained(txs, indexVote) == txs
  {
    if txs != [] {
      var n := |txs| - 1;
      hide Ascending;
      RetainedKeeps(txs[..n], indexVote);
      assert txs == txs[..n] + [txs[n]];
      if Ascending(txs) {
        AscendingOnward(txs, Retained(txs[..n], indexVote));
      }
    }
  }

  lemma AscendingOnward(txs: seq<Transaction>, kept: seq<Transaction>)
    requires txs != [] && Ascending(txs) && forall tx :: tx in kept ==> tx in txs[..|txs| - 1]
    ensures Ascending(txs[..|txs| - 1])
    ensures Ascending(kept) ==> Ascending(kept + [txs[|txs| - 1]])
  {
    var n := |txs| - 1;
    forall i | 0 <= i < |kept| ensures kept[i].index < txs[n].index {
      assert kept[i] in kept && kept[i] in txs[..n];
    }
  }

  /** Transactions carry their position in the block, which the filter does not renumber. */
  ghost predicate Ascending(txs: seq<Transaction>) {
    forall i, j :: 0 <= i < j < |txs| ==> txs[i].index < txs[j].index
  }

  // ----- rows per address -----

  /** Each transaction mentions an address at most once, with its own index. */
  ghost predicate ProperMentions(tx: Transaction) {
    && (forall i :: 0 <= i < |tx.mentions| ==> tx.mentions[i].status.index == tx.index)
    && (forall i, j :: 0 <= i < j < |tx.mentions| ==> tx.mentions[i].address != tx.mentions[j].address)
  }

  ghost function StatusesIn(mentions: seq<Mention>, address: nat): seq<Codec.Status> {
    if mentions == [] then []
    else
      var n := |mentions| - 1;
      StatusesIn(mentions[..n], address) + if mentions[n].address == address then [mentions[n].status] else []
  }

  /** The row of an address: newest transaction first. */
  ghost function RowOf(txs: seq<Transaction>, address: nat): seq<Codec.Status> {
    if txs == [] then []
    else RowOf(txs[1..], address) + StatusesIn(txs[0].mentions, address)
  }

  /** A row holds exactly what the transactions say of its address. */
  lemma {:induction false} RowHasEveryMention(txs: seq<Transaction>, address: nat, status: Codec.Status)
    ensures status in RowOf(txs, address) <==>
              exists tx, m :: tx in txs && m in tx.mentions && m.address == address && m.status == status
  {
    if txs != [] {
      hide StatusesIn;
      assert txs == [txs[0]] + txs[1..];
      RowHasEveryMention(txs[1..], address, status);
      StatusesHasEveryMention(txs[0].mentions, address, status);
    }
  }

  lemma {:induction false} StatusesHasEveryMention(mentions: seq<Mention>, address: nat, status: Codec.Status)
    ensures status in StatusesIn(mentions, address) <==> exists m :: m in mentions && m.address == address && m.status == status
  {
    if mentions != [] {
      var n := |mentions| - 1;
      StatusesHasEveryMention(mentions[..n], address, status);
      assert mentions == mentions[..n] + [mentions[n]];
      assert mentions[n] in mentions;
    }
  }

  type Rows = map<nat, seq<Codec.Status>>

  ghost function RowIn(rows: Rows, address: nat): seq<Codec.Status> {
    if address in rows then rows[address] else []
  }

  ghost predicate Holds(rows: Rows, txs: seq<Transaction>) {
    && (forall a :: a in rows ==> rows[a] != [])
    && (forall a :: RowIn(rows, a) == RowOf(txs, a))
  }

  /** The grouping loop of `BlockWithBinary::new`: transactions from last to first. */
  method GroupByAddress(txs: seq<Transaction>) returns (rows: Rows)
    ensures Holds(rows, txs)
  {
    rows := map[];
    var i := |txs|;
    assert txs[i..] == [];
    while i > 0
      invariant 0 <= i <= |txs|
      invariant Holds(rows, txs[i..])
    {
      i := i - 1;
      ghost var before := rows;
      assert txs[i..][1..] == txs[i + 1..];
      rows := MergeMentions(rows, txs[i].mentions);
    }
    assert txs[0..] == txs;
  }

  method MergeMentions(before: Rows, mentions: seq<Mention>) returns (rows: Rows)
    requires forall a :: a in before ==> before[a] != []
    ensures forall a :: a in rows ==> rows[a] != []
    ensures forall a :: RowIn(rows, a) == RowIn(before, a) + StatusesIn(mentions, a)
  {
    hide StatusesIn;
    rows := before;
    forall a ensures StatusesIn(mentions[..0], a) == [] { NoStatuses(mentions, a); }
    for k := 0 to |mentions|
      invariant forall a :: a in rows ==> rows[a] != []
      invariant forall a :: RowIn(rows, a) == RowIn(before, a) + StatusesIn(mentions[..k], a)
    {
      var m := mentions[k];
      ghost var merged := rows;
      if m.address in rows {
        rows := rows[m.address := rows[m.address] + [m.status]];
      } else {
        rows := rows[m.address := [m.status]];
      }
      forall a ensures RowIn(rows, a) == RowIn(before, a) + StatusesIn(mentions[..k + 1], a) {
        StatusesStep(mentions, k, a);
        assert RowIn(rows, a) == RowIn(merged, a) + if a == m.address then [m.status] else [];
      }
    }
    assert mentions[..|mentions|] == mentions;
  }

  lemma NoStatuses(mentions: seq<Mention>, address: nat)
    ensures StatusesIn(mentions[..0], address) == []
  {
  }

  lemma StatusesStep(mentions: seq<Mention>, k: nat, address: nat)
    requires k < |mentions|
    ensures StatusesIn(mentions[..k + 1], address)
            == StatusesIn(mentions[..k], address) + if address == mentions[k].address then [mentions[k].status] else []
  {
    assert mentions[..k + 1][..k] == mentions[..k];
  }

  ghost predicate Descending(row: seq<Codec.Status>) {
    forall i, j :: 0 <= i < j < |row| ==> row[i].index > row[j].index
  }

  lemma {:induction false} StatusesInProper(mentions: seq<Mention>, address: nat)
    requires forall i, j :: 0 <= i < j < |mentions| ==> mentions[i].address != mentions[j].address
    ensures |StatusesIn(mentions, address)| <= 1
    ensures StatusesIn(mentions, address) != [] ==>
              exists m :: m in mentions && m.address == address && StatusesIn(mentions, address) == [m.status]
    ensures StatusesIn(mentions, address) == [] ==> forall m :: m in mentions ==> m.address != address
  {
    if mentions != [] {
      var n := |mentions| - 1;
      StatusesInProper(mentions[..n], address);
      assert mentions == mentions[..n] + [mentions[n]];
      if mentions[n].address == address {
        assert forall m :: m in mentions[..n] ==> m.address != address;
        assert mentions[n] in mentions;
      }
    }
  }

  lemma OwnStatus(tx: Transaction, address: nat)
    requires ProperMentions(tx)
    ensures |StatusesIn(tx.mentions, address)| <= 1
    ensures forall v :: v in StatusesIn(tx.mentions, address) ==> v.index == tx.index
  {
    StatusesInProper(tx.mentions, address);
    if StatusesIn(tx.mentions, address) != [] {
      var m :| m in tx.mentions && m.address == address && StatusesIn(tx.mentions, address) == [m.status];
    }
  }

  /** Rows are strictly descending in transaction index, which the address scans rely on. */
  lemma {:induction false} RowsDescend(txs: seq<Transaction>, address: nat)
    requires Ascending(txs) && forall i :: 0 <= i < |txs| ==> ProperMentions(txs[i])
    ensures Descending(RowOf(txs, address))
    ensures txs != [] ==> forall v :: v in RowOf(txs, address) ==> v.index >= txs[0].index
  {
    if txs != [] {
      hide StatusesIn, ProperMentions;
      RowsDescend(txs[1..], address);
      OwnStatus(txs[0], address);
      assert |txs| == 1 ==> RowOf(txs[1..], address) == [];
    }
  }

  // ----- getTransaction, end to end -----

  /** The index value written for a stored transaction. */
  function IndexValue(slot: Slot, o: TxOffset): Codec.TransactionIndex {
    Codec.TransactionIndex(slot, o.offset, o.size, o.err, o.index)
  }

  /** The block as it is stored: without the transactions the filter drops. */
  function Kept(b: Block, indexVote: bool): Block {
    b.(transactions := Retained(b.transactions, indexVote))
  }

  /** `BlockWithBinary::new`: filter, encode, and group what stays by address. */
  method NewBlock(b: Block, indexVote: bool) returns (buf: seq<Byte>, offsets: seq<TxOffset>, rows: Rows)
    requires SizedBlock(b)
    ensures buf == EncodeFields(BlockFields(Kept(b, indexVote))) && |buf| == EncodedLen(Kept(b, indexVote))
    ensures offsets == OffsetsOf(Kept(b, indexVote))
    ensures Holds(rows, Retained(b.transactions, indexVote))
  {
    hide EncodeFields, BlockFields, OffsetsOf, EncodedLen;
    KeptSized(b, indexVote);
    buf, offsets := EncodeWithTxOffsets(Kept(b, indexVote));
    rows := GroupByAddress(Retained(b.transactions, indexVote));
  }

  lemma KeptSized(b: Block, indexVote: bool)
    requires SizedBlock(b)
    ensures SizedBlock(Kept(b, indexVote))
  {
    hide SizedReward;
    RetainedKeeps(b.transactions, indexVote);
    var kept := Retained(b.transactions, indexVote);
    forall i | 0 <= i < |kept| ensures |kept[i].protobuf| < TWO_64 {
      assert kept[i] in kept;
    }
  }

  /**
   A transaction the filter lets through has an index row; decode it, add its
   offset to the block's offset and read that many bytes of the file: the result
   is that transaction's protobuf, with or without the votes around it.
   */
  lemma GetTransactionBytes(b: Block, indexVote: bool, slot: Slot, data: seq<Byte>, blockOffset: nat, tx: Transaction)
    returns (i: nat)
    requires SizedBlock(b) && tx in b.transactions && (indexVote || !tx.vote) && tx.err != Some([])
    requires forall o :: o in OffsetsOf(Kept(b, indexVote)) ==> Codec.Sized(IndexValue(slot, o))
    requires Files.Intact(data, Files.Chunk(blockOffset, EncodeFields(BlockFields(Kept(b, indexVote)))))
    ensures i < |OffsetsOf(Kept(b, indexVote))| && OffsetsOf(Kept(b, indexVote))[i].key == tx.key
    ensures var stored := Codec.DecodeTransaction(Codec.EncodeTransaction(IndexValue(slot, OffsetsOf(Kept(b, indexVote))[i])));
      && stored.Some? && stored.value.slot == slot && stored.value.err == tx.err && stored.value.index == tx.index
      && blockOffset + stored.value.offset + stored.value.size <= |data|
      && data[blockOffset + stored.value.offset..blockOffset + stored.value.offset + stored.value.size] == tx.protobuf
  {
    hide Codec.DecodeTransaction, Codec.EncodeTransaction, Retained, EncodeFields, BlockFields, OffsetsOf;
    RetainedKeeps(b.transactions, indexVote);
    KeptSized(b, indexVote);
    var kept := Kept(b, indexVote);
    i :| i < |kept.transactions| && kept.transactions[i] == tx;
    var o := OffsetsOf(kept)[i];
    assert o in OffsetsOf(kept);
    OffsetsAreExact(kept, i);
    Codec.TransactionRoundTrip(IndexValue(slot, o));
    SliceOfSlice(data, blockOffset, |EncodeFields(BlockFields(kept))|, o.offset, o.size);
  }

  lemma SliceOfSlice(data: seq<Byte>, start: nat, len: nat, offset: nat, size: nat)
    requires start + len <= |data| && offset + size <= len
    ensures data[start..start + len][offset..offset + size] == data[start + offset..start + offset + size]
  {
    var inner := data[start..start + len];
    var a, b := inner[offset..offset + size], data[start + offset..start + offset + size];
    assert |a| == |b|;
    forall k | 0 <= k < |a| ensures a[k] == b[k] {
      assert a[k] == inner[offset + k] == data[start + offset + k];
    }
  }
}
