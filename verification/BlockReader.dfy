/**
 Reading a stored block back: a reader that knows only the numbers of the fields
 in the ConfirmedBlock and Reward messages recovers what the encoder was given.
 */
module BlockReader {
  import opened Common
  import opened Wire
  import opened BlockCodec
  import Codec

  // ----- fields by number -----

  /** The fields with a number, in order. */
  function Only(fs: seq<Field>, tag: nat): seq<Field> {
    if fs == [] then [] else (if fs[0].tag == tag then [fs[0]] else []) + Only(fs[1..], tag)
  }

  /** A number field; absent means zero. */
  function NumberIn(fs: seq<Field>, tag: nat): nat {
    var own := Only(fs, tag);
    if own != [] && own[|own| - 1].Number? then own[|own| - 1].value else 0
  }

  /** A string or bytes field, if present. */
  function BytesIn(fs: seq<Field>, tag: nat): Option<seq<Byte>> {
    var own := Only(fs, tag);
    if own != [] && own[|own| - 1].Bytes? then Some(own[|own| - 1].bytes) else None
  }

  lemma OnlyStep(fs: seq<Field>, tag: nat)
    requires fs != []
    ensures Only(fs, tag) == (if fs[0].tag == tag then [fs[0]] else []) + Only(fs[1..], tag)
  {
  }

  lemma {:induction false} OnlyConcat(a: seq<Field>, b: seq<Field>, tag: nat)
    ensures Only(a + b, tag) == Only(a, tag) + Only(b, tag)
  {
    if a == [] {
      assert a + b == b;
      assert [] + Only(b, tag) == Only(b, tag);
    } else {
      hide Only;
      var own := if a[0].tag == tag then [a[0]] else [];
      assert (a + b)[0] == a[0] && (a + b)[1..] == a[1..] + b;
      OnlyConcat(a[1..], b, tag);
      OnlyStep(a + b, tag);
      OnlyStep(a, tag);
      assert (own + Only(a[1..], tag)) + Only(b, tag) == own + (Only(a[1..], tag) + Only(b, tag));
    }
  }

  lemma OnlyOpt(present: bool, f: Field, rest: seq<Field>, tag: nat)
    ensures Only(Opt(present, f) + rest, tag) == (if present && f.tag == tag then [f] else []) + Only(rest, tag)
  {
    OnlyConcat(Opt(present, f), rest, tag);
    assert [f][1..] == [];
    assert Only([f], tag) == if f.tag == tag then [f] else [];
  }

  /** A repeated field shows exactly under its own number. */
  lemma {:induction false} OnlyRepeated(fs: seq<Field>, own: nat, tag: nat)
    requires forall i :: 0 <= i < |fs| ==> fs[i].tag == own
    ensures Only(fs, tag) == if own == tag then fs else []
  {
    if fs != [] {
      OnlyRepeated(fs[1..], own, tag);
      assert fs == [fs[0]] + fs[1..];
    }
  }

  // ----- rewards -----

  /** The number that decimal text stands for; None for other text. */
  function ParseDecimal(s: seq<Byte>): Option<nat> {
    if s == [] then None
    else
      var digit := s[|s| - 1];
      if digit < 48 || 57 < digit then None
      else if |s| == 1 then Some(digit - 48)
      else
        var front := ParseDecimal(s[..|s| - 1]);
        if front.None? then None else Some(10 * front.value + (digit - 48))
  }

  lemma {:induction false} DecimalRoundTrip(n: nat)
    ensures ParseDecimal(Decimal(n)) == Some(n) && Decimal(n) != []
    decreases n
  {
    if n >= 10 {
      DecimalRoundTrip(n / 10);
      assert Decimal(n)[..|Decimal(n)| - 1] == Decimal(n / 10);
    }
  }

  function ReadText(text: Option<seq<Byte>>): Option<nat> {
    if text.None? then None else ParseDecimal(text.value)
  }

  function ReadReward(bytes: seq<Byte>): Option<Reward> {
    match ParseFields(bytes)
    case None => None
    case Some(fs) =>
      Some(Reward(ValueOr(BytesIn(fs, 1), []), Codec.ToSigned(NumberIn(fs, 2)), NumberIn(fs, 3),
                  if Only(fs, 4) == [] then None else Some(NumberIn(fs, 4)),
                  ReadText(BytesIn(fs, 5)), ReadText(BytesIn(fs, 6))))
  }

  /** What stands under a field number of a reward. */
  ghost function RewardFieldAt(r: Reward, tag: nat): seq<Field> {
    if tag == 1 && r.pubkey != [] then [Bytes(1, r.pubkey)]
    else if tag == 2 && r.lamports != 0 then [Number(2, ToUnsigned(r.lamports))]
    else if tag == 3 && r.postBalance != 0 then [Number(3, r.postBalance)]
    else if tag == 4 && r.kind.Some? then [Number(4, r.kind.value)]
    else if tag == 5 && r.commission.Some? then [Bytes(5, Decimal(r.commission.value))]
    else if tag == 6 && r.commissionBps.Some? then [Bytes(6, Decimal(r.commissionBps.value))]
    else []
  }

  lemma RewardFieldsByNumber(r: Reward, tag: nat)
    ensures Only(RewardFields(r), tag) == RewardFieldAt(r, tag)
  {
    hide Decimal, Opt, Only;
    var f1, f2, f3 := Bytes(1, r.pubkey), Number(2, ToUnsigned(r.lamports)), Number(3, r.postBalance);
    var f4, f5, f6 := Number(4, ValueOr(r.kind, 0)), Bytes(5, Decimal(ValueOr(r.commission, 0))), Bytes(6, Decimal(ValueOr(r.commissionBps, 0)));
    var s6 := Opt(r.commissionBps.Some?, f6) + [];
    var s5 := Opt(r.commission.Some?, f5) + s6;
    var s4 := Opt(r.kind.Some?, f4) + s5;
    var s3 := Opt(r.postBalance != 0, f3) + s4;
    var s2 := Opt(r.lamports != 0, f2) + s3;
    assert RewardFields(r) == Opt(r.pubkey != [], f1) + s2;
    OnlyNothing(tag);
    OnlyOpt(r.commissionBps.Some?, f6, [], tag);
    OnlyOpt(r.commission.Some?, f5, s6, tag);
    OnlyOpt(r.kind.Some?, f4, s5, tag);
    OnlyOpt(r.postBalance != 0, f3, s4, tag);
    OnlyOpt(r.lamports != 0, f2, s3, tag);
    OnlyOpt(r.pubkey != [], f1, s2, tag);
  }

  lemma OnlyNothing(tag: nat)
    ensures Only([], tag) == []
  {
  }

  /** A reward reads back as itself. */
  lemma RewardRoundTrip(r: Reward)
    requires SizedReward(r)
    ensures ReadReward(EncodeFields(RewardFields(r))) == Some(r)
  {
    hide Decimal, RewardFields, Only, ParseFields, EncodeFields, ParseDecimal;
    RewardIsSized(r);
    FieldsRoundTrip(RewardFields(r));
    forall tag ensures Only(RewardFields(r), tag) == RewardFieldAt(r, tag) {
      RewardFieldsByNumber(r, tag);
    }
    DecimalRoundTrip(ValueOr(r.commission, 0));
    DecimalRoundTrip(ValueOr(r.commissionBps, 0));
    SignedBack(r.lamports);
  }

  lemma RewardIsSized(r: Reward)
    requires SizedReward(r)
    ensures forall f :: f in RewardFields(r) ==> Wire.Sized(f)
  {
    hide RewardFields;
    RewardDeclaredLength(r);
    assert AllSized(RewardFields(r));
  }

  lemma SignedBack(v: int)
    requires -TWO_63 <= v < TWO_63
    ensures Codec.ToSigned(ToUnsigned(v)) == v && (v != 0 ==> ToUnsigned(v) != 0) && Codec.ToSigned(0) == 0
  {
  }

  // ----- blocks -----

  /** The parts of a block a reader gets: transactions and rewards in order, the rest by name. */
  datatype Content = Content(
    previousHash: seq<Byte>, hash: seq<Byte>, parentSlot: Slot, transactions: seq<seq<Byte>>,
    rewards: seq<Reward>, time: Option<int>, height: Option<nat>, partitions: Option<nat>)

  function ContentOf(b: Block): Content {
    Content(b.previousHash, b.hash, b.parentSlot, seq(|b.transactions|, i requires 0 <= i < |b.transactions| => b.transactions[i].protobuf),
            b.rewards, b.time, b.height, b.partitions)
  }

  function ReadRewards(fs: seq<Field>): Option<seq<Reward>> {
    if fs == [] then Some([])
    else if fs[0].Number? then None
    else
      match (ReadReward(fs[0].bytes), ReadRewards(fs[1..]))
      case (Some(r), Some(rest)) => Some([r] + rest)
      case _ => None
  }

  function ReadBytes(fs: seq<Field>): seq<seq<Byte>> {
    if fs == [] then [] else (if fs[0].Bytes? then [fs[0].bytes] else []) + ReadBytes(fs[1..])
  }

  /** A message that holds one number. */
  function ReadBoxed(bytes: Option<seq<Byte>>): Option<nat> {
    if bytes.None? then None
    else
      match ParseFields(bytes.value)
      case None => None
      case Some(fs) => Some(NumberIn(fs, 1))
  }

  function ReadBlock(bytes: seq<Byte>): Option<Content> {
    match ParseFields(bytes)
    case None => None
    case Some(fs) =>
      match ReadRewards(Only(fs, 5))
      case None => None
      case Some(rewards) =>
        var time := ReadBoxed(BytesIn(fs, 6));
        Some(Content(ValueOr(BytesIn(fs, 1), []), ValueOr(BytesIn(fs, 2), []), NumberIn(fs, 3), ReadBytes(Only(fs, 4)), rewards,
                     if time.Some? then Some(Codec.ToSigned(time.value)) else None,
                     ReadBoxed(BytesIn(fs, 7)), ReadBoxed(BytesIn(fs, 8))))
  }

  lemma {:induction false} RewardsRoundTrip(rewards: seq<Reward>)
    requires forall i :: 0 <= i < |rewards| ==> SizedReward(rewards[i])
    ensures ReadRewards(RewardsFields(rewards)) == Some(rewards)
  {
    hide ReadReward, RewardFields, EncodeFields, SizedReward;
    if rewards != [] {
      RewardRoundTrip(rewards[0]);
      RewardsRoundTrip(rewards[1..]);
      assert RewardsFields(rewards)[1..] == RewardsFields(rewards[1..]);
      assert rewards == [rewards[0]] + rewards[1..];
    }
  }

  lemma {:induction false} TransactionsRoundTrip(txs: seq<Transaction>)
    ensures ReadBytes(TxFields(txs)) == seq(|txs|, i requires 0 <= i < |txs| => txs[i].protobuf)
  {
    if txs != [] {
      TransactionsRoundTrip(txs[1..]);
      assert TxFields(txs)[1..] == TxFields(txs[1..]);
    }
  }

  lemma BoxedRoundTrip(value: nat)
    requires value < TWO_64
    ensures ReadBoxed(Some(EncodeFields(Boxed(value)))) == Some(value)
  {
    hide ParseFields, EncodeFields;
    FieldsRoundTrip(Boxed(value));
    OnlyOpt(value != 0, Number(1, value), [], 1);
    OnlyNothing(1);
    assert Boxed(value) + [] == Boxed(value);
  }

  /** What stands under a field number of a block. */
  ghost function BlockFieldAt(b: Block, tag: nat): seq<Field> {
    if tag == 1 && b.previousHash != [] then [Bytes(1, b.previousHash)]
    else if tag == 2 && b.hash != [] then [Bytes(2, b.hash)]
    else if tag == 3 && b.parentSlot != 0 then [Number(3, b.parentSlot)]
    else if tag == 4 then TxFields(b.transactions)
    else if tag == 5 then RewardsFields(b.rewards)
    else if tag == 6 && b.time.Some? then [Bytes(6, EncodeFields(Boxed(ToUnsigned(b.time.value))))]
    else if tag == 7 && b.height.Some? then [Bytes(7, EncodeFields(Boxed(b.height.value)))]
    else if tag == 8 && b.partitions.Some? then [Bytes(8, EncodeFields(Boxed(b.partitions.value)))]
    else []
  }

  lemma HeadByNumber(b: Block, tag: nat)
    ensures Only(HeadFields(b), tag) == if 1 <= tag <= 3 then BlockFieldAt(b, tag) else []
  {
    hide Only, Opt, EncodeFields;
    OnlyNothing(tag);
    OnlyOpt(b.parentSlot != 0, Number(3, b.parentSlot), [], tag);
    OnlyOpt(b.hash != [], Bytes(2, b.hash), Opt(b.parentSlot != 0, Number(3, b.parentSlot)) + [], tag);
    OnlyOpt(b.previousHash != [], Bytes(1, b.previousHash),
            Opt(b.hash != [], Bytes(2, b.hash)) + (Opt(b.parentSlot != 0, Number(3, b.parentSlot)) + []), tag);
  }

  lemma TailByNumber(b: Block, tag: nat)
    ensures Only(TailFields(b), tag) == if 6 <= tag <= 8 then BlockFieldAt(b, tag) else []
  {
    hide Only, Opt, EncodeFields;
    var f6, f7 := Bytes(6, EncodeFields(Boxed(UnsignedTime(b.time)))), Bytes(7, EncodeFields(Boxed(ValueOr(b.height, 0))));
    var f8 := Bytes(8, EncodeFields(Boxed(ValueOr(b.partitions, 0))));
    OnlyNothing(tag);
    OnlyOpt(b.partitions.Some?, f8, [], tag);
    OnlyOpt(b.height.Some?, f7, Opt(b.partitions.Some?, f8) + [], tag);
    OnlyOpt(b.time.Some?, f6, Opt(b.height.Some?, f7) + (Opt(b.partitions.Some?, f8) + []), tag);
  }

  lemma BlockFieldsByNumber(b: Block, tag: nat)
    ensures Only(BlockFields(b), tag) == BlockFieldAt(b, tag)
  {
    hide Only, Opt, EncodeFields, HeadFields, TailFields, TxFields, RewardsFields, BlockFieldAt;
    var txs, rewards := TxFields(b.transactions), RewardsFields(b.rewards);
    OnlyConcat(HeadFields(b) + txs + rewards, TailFields(b), tag);
    OnlyConcat(HeadFields(b) + txs, rewards, tag);
    OnlyConcat(HeadFields(b), txs, tag);
    HeadByNumber(b, tag);
    TailByNumber(b, tag);
    RepeatedByNumber(b, tag);
    OneOfFour(BlockFieldAt(b, tag));
  }

  lemma RepeatedByNumber(b: Block, tag: nat)
    ensures Only(TxFields(b.transactions), tag) == if tag == 4 then BlockFieldAt(b, tag) else []
    ensures Only(RewardsFields(b.rewards), tag) == if tag == 5 then BlockFieldAt(b, tag) else []
    ensures tag == 0 || tag > 8 ==> BlockFieldAt(b, tag) == []
  {
    hide Only, EncodeFields;
    OnlyRepeated(TxFields(b.transactions), 4, tag);
    OnlyRepeated(RewardsFields(b.rewards), 5, tag);
  }

  lemma OneOfFour(x: seq<Field>)
    ensures x + [] + [] + [] == x && [] + x + [] + [] == x && [] + [] + x + [] == x && [] + [] + [] + x == x
  {
  }

  /** A stored block reads back as what the encoder was given: hashes, parent, transactions, rewards, time, height and partitions. */
  lemma BlockReadsBack(b: Block)
    requires SizedBlock(b)
    ensures ReadBlock(EncodeFields(BlockFields(b))) == Some(ContentOf(b))
  {
    hide ParseFields, EncodeFields, BlockFields, Only, ReadRewards, ReadBytes, ReadBoxed, RewardsFields, TxFields, Boxed, SizedReward;
    BlockRoundTrip(b);
    forall tag ensures Only(BlockFields(b), tag) == BlockFieldAt(b, tag) {
      BlockFieldsByNumber(b, tag);
    }
    RewardsRoundTrip(b.rewards);
    TransactionsRoundTrip(b.transactions);
    var fs := BlockFields(b);
    assert BytesIn(fs, 1) == if b.previousHash != [] then Some(b.previousHash) else None;
    assert BytesIn(fs, 2) == if b.hash != [] then Some(b.hash) else None;
    assert NumberIn(fs, 3) == b.parentSlot;
    assert ReadBytes(Only(fs, 4)) == ContentOf(b).transactions;
    if b.time.Some? {
      BoxedRoundTrip(ToUnsigned(b.time.value));
      SignedBack(b.time.value);
    }
    if b.height.Some? {
      BoxedRoundTrip(b.height.value);
    }
    if b.partitions.Some? {
      BoxedRoundTrip(b.partitions.value);
    }
    NothingBoxed();
  }

  lemma NothingBoxed()
    ensures ReadBoxed(None).None?
  {
  }
}
