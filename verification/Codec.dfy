/**
 Value codecs of the RocksDB columns (src/storage/rocksdb.rs). Integers are
 written as varints (Protocol Buffers Encoding, "Base 128 Varints"); serialized
 transaction errors are opaque byte strings.
 */
module Varint {
  import opened Common

  function Encode(v: nat): (r: seq<Byte>) {
    if v < 128 then [v] else [v % 128 + 128] + Encode(v / 128)
  }

  /** Decode one varint of at most ten bytes that fits 64 bits; the rest of the input comes back. */
  function Decode(s: seq<Byte>): (r: Option<(nat, seq<Byte>)>) {
    DecodeFrom(s, 0)
  }

  function DecodeFrom(s: seq<Byte>, read: nat): (r: Option<(nat, seq<Byte>)>)
    requires read <= 9
    ensures r.Some? ==> |r.value.1| < |s|
    decreases 9 - read
  {
    if s == [] || (read == 9 && s[0] > 1) then None
    else if s[0] < 128 then Some((s[0], s[1..]))
    else
      match DecodeFrom(s[1..], read + 1)
      case None => None
      case Some((v, rest)) => Some((v * 128 + s[0] - 128, rest))
  }

  /** The numbers that still fit after `read` bytes: 2 to the power 64 - 7 * read. */
  function Room(read: nat): nat
    requires read <= 9
  {
    match read
    case 0 => 0x1_0000_0000_0000_0000
    case 1 => 0x200_0000_0000_0000
    case 2 => 0x4_0000_0000_0000
    case 3 => 0x800_0000_0000
    case 4 => 0x10_0000_0000
    case 5 => 0x2000_0000
    case 6 => 0x40_0000
    case 7 => 0x8000
    case 8 => 0x100
    case 9 => 2
  }

  lemma RoomShrinks(v: nat, read: nat)
    requires read <= 9 && 128 <= v < Room(read)
    ensures read < 9 && v / 128 < Room(read + 1)
  {
  }

  lemma EncodeStep(v: nat)
    requires v >= 128
    ensures Encode(v) == [v % 128 + 128] + Encode(v / 128)
  {
  }

  lemma {:induction false} RoundTripFrom(v: nat, rest: seq<Byte>, read: nat)
    requires read <= 9 && v < Room(read)
    ensures DecodeFrom(Encode(v) + rest, read) == Some((v, rest))
    decreases v
  {
    var s := Encode(v) + rest;
    if v < 128 {
      assert s[0] == v && s[1..] == rest;
      assert read == 9 ==> v < 2;
    } else {
      hide Room, Encode;
      RoomShrinks(v, read);
      EncodeStep(v);
      assert s[0] == v % 128 + 128 && s[1..] == Encode(v / 128) + rest;
      RoundTripFrom(v / 128, rest, read + 1);
    }
  }

  lemma RoundTrip(v: nat, rest: seq<Byte>)
    requires v < TWO_64
    ensures Decode(Encode(v) + rest) == Some((v, rest))
  {
    RoundTripFrom(v, rest, 0);
  }

  /** `encoded_len_varint`: one byte per seven significant bits. */
  function Len(v: nat): nat {
    if v < 0x80 then 1
    else if v < 0x4000 then 2
    else if v < 0x20_0000 then 3
    else if v < 0x1000_0000 then 4
    else if v < 0x8_0000_0000 then 5
    else if v < 0x400_0000_0000 then 6
    else if v < 0x2_0000_0000_0000 then 7
    else if v < 0x100_0000_0000_0000 then 8
    else if v < 0x8000_0000_0000_0000 then 9
    else 10
  }

  lemma {:induction false} EncodedLen(v: nat)
    requires v < TWO_64
    ensures |Encode(v)| == Len(v)
    decreases v
  {
    if v >= 128 {
      EncodedLen(v / 128);
    }
  }

  lemma NonEmpty(v: nat)
    ensures |Encode(v)| > 0
  {
  }
}

module Codec {
  import opened Common
  import Varint

  // ----- transaction index -----

  datatype TransactionIndex = TransactionIndex(slot: Slot, offset: nat, size: nat, err: Option<seq<Byte>>, index: nat)

  predicate Sized(v: TransactionIndex) {
    && v.slot < TWO_64 && v.offset < TWO_64 && v.size < TWO_64 && v.index < TWO_32
    && (v.err.Some? ==> |v.err.value| < TWO_64)
  }

  /** A length-prefixed byte string, when present. */
  function EncodeBlob(v: Option<seq<Byte>>): seq<Byte> {
    if v.Some? then Varint.Encode(|v.value|) + v.value else []
  }

  /** The layout written before errors and indexes were stored. */
  function EncodeFirstLayout(v: TransactionIndex): seq<Byte> {
    Varint.Encode(v.slot) + (Varint.Encode(v.offset) + Varint.Encode(v.size))
  }

  /** The layout with errors but no index. */
  function EncodeSecondLayout(v: TransactionIndex): seq<Byte> {
    Varint.Encode(v.slot) + (Varint.Encode(v.offset) + (Varint.Encode(v.size) + EncodeBlob(v.err)))
  }

  function EncodeTransaction(v: TransactionIndex): seq<Byte> {
    Varint.Encode(v.slot) + (Varint.Encode(v.offset) + (Varint.Encode(v.size) +
      (EncodeBlob(v.err) + Varint.Encode(v.index))))
  }

  function DecodeTransaction(s: seq<Byte>): (r: Option<TransactionIndex>) {
    match Varint.Decode(s)
    case None => None
    case Some((slot, s1)) =>
      match Varint.Decode(s1)
      case None => None
      case Some((offset, s2)) =>
        match Varint.Decode(s2)
        case None => None
        case Some((size, s3)) =>
          match DecodeTail(s3)
          case None => None
          case Some((err, index)) => Some(TransactionIndex(slot, offset, size, err, index))
  }

  /** What follows the three numbers: nothing, a bare index, or an error with an optional index. */
  function DecodeTail(s: seq<Byte>): (r: Option<(Option<seq<Byte>>, nat)>) {
    if s == [] then Some((None, 0))
    else
      match Varint.Decode(s)
      case None => None
      case Some((a, rest)) =>
        if a == 0 || |rest| < a then Some((None, a % TWO_32))
        else if rest[a..] == [] then Some((Some(rest[..a]), 0))
        else
          match Varint.Decode(rest[a..])
          case None => None
          case Some((index, _)) => Some((Some(rest[..a]), index % TWO_32))
  }

  /** Three varints, then whatever the tail decodes to. */
  lemma DecodeHead(v: TransactionIndex, tail: seq<Byte>)
    requires Sized(v)
    ensures DecodeTransaction(Varint.Encode(v.slot) + (Varint.Encode(v.offset) + (Varint.Encode(v.size) + tail)))
            == match DecodeTail(tail)
               case None => None
               case Some((err, index)) => Some(TransactionIndex(v.slot, v.offset, v.size, err, index))
  {
    hide Varint.Encode, Varint.Decode;
    Varint.RoundTrip(v.slot, Varint.Encode(v.offset) + (Varint.Encode(v.size) + tail));
    Varint.RoundTrip(v.offset, Varint.Encode(v.size) + tail);
    Varint.RoundTrip(v.size, tail);
  }

  lemma TailWithoutErr(index: nat)
    requires index < TWO_32
    ensures DecodeTail(Varint.Encode(index)) == Some((None, index))
  {
    hide Varint.Encode, Varint.Decode;
    assert Varint.Encode(index) + [] == Varint.Encode(index);
    Varint.NonEmpty(index);
    Varint.RoundTrip(index, []);
  }

  lemma TailWithErr(data: seq<Byte>, index: nat)
    requires index < TWO_32 && |data| < TWO_64
    ensures DecodeTail(Varint.Encode(|data|) + data + Varint.Encode(index))
            == Some(if data == [] then (None, 0) else (Some(data), index))
  {
    hide Varint.Encode, Varint.Decode;
    var rest := data + Varint.Encode(index);
    assert Varint.Encode(|data|) + data + Varint.Encode(index) == Varint.Encode(|data|) + rest;
    Varint.NonEmpty(|data|);
    Varint.NonEmpty(index);
    Varint.RoundTrip(|data|, rest);
    assert rest[..|data|] == data && rest[|data|..] == Varint.Encode(index);
    assert Varint.Encode(index) + [] == Varint.Encode(index);
    Varint.RoundTrip(index, []);
  }

  lemma TailRoundTrip(err: Option<seq<Byte>>, index: nat)
    requires index < TWO_32 && (err.Some? ==> |err.value| < TWO_64)
    ensures DecodeTail(EncodeBlob(err) + Varint.Encode(index)) == Some((err, index)) <==> err != Some([])
  {
    hide Varint.Encode, DecodeTail;
    match err {
      case None =>
        assert [] + Varint.Encode(index) == Varint.Encode(index);
        TailWithoutErr(index);
      case Some(data) => TailWithErr(data, index);
    }
  }

  /**
   The stored value reads back as itself although nothing marks whether the
   error is present: exactly because a serialized error is never empty.
   */
  lemma TransactionRoundTrip(v: TransactionIndex)
    requires Sized(v)
    ensures DecodeTransaction(EncodeTransaction(v)) == Some(v) <==> v.err != Some([])
  {
    hide Varint.Encode, Varint.Decode, DecodeTransaction, DecodeTail;
    DecodeHead(v, EncodeBlob(v.err) + Varint.Encode(v.index));
    TailRoundTrip(v.err, v.index);
  }

  /** Records of both older layouts still decode, with index 0. */
  lemma OlderLayoutsDecode(v: TransactionIndex)
    requires Sized(v)
    ensures v.err.None? ==> DecodeTransaction(EncodeFirstLayout(v)) == Some(v.(index := 0))
    ensures v.err != Some([]) ==> DecodeTransaction(EncodeSecondLayout(v)) == Some(v.(index := 0))
  {
    DecodeHead(v, []);
    assert Varint.Encode(v.size) + [] == Varint.Encode(v.size);
    DecodeHead(v, EncodeBlob(v.err));
    if v.err.Some? && v.err.value != [] {
      var data := v.err.value;
      Varint.NonEmpty(|data|);
      Varint.RoundTrip(|data|, data);
      assert data[..|data|] == data && data[|data|..] == [];
    }
  }

  // ----- slot index -----

  datatype SlotValue = SlotValue(dead: bool, time: Option<int>, height: Option<nat>, storageId: nat, offset: nat, size: nat)

  const DeadSlot := SlotValue(true, None, None, 0, 0, 0)

  predicate SizedSlot(v: SlotValue) {
    && (v.time.Some? ==> -TWO_63 <= v.time.value < TWO_63)
    && (v.height.Some? ==> v.height.value < TWO_64)
    && v.storageId < 256 && v.offset < TWO_64 && v.size < TWO_64
  }

  /** `as i64`. */
  function ToSigned(u: nat): int {
    if u < TWO_63 then u else u - TWO_64
  }

  function EncodeOption(v: Option<nat>): seq<Byte> {
    if v.Some? then Varint.Encode(v.value) else []
  }

  function UnsignedTime(t: Option<int>): Option<nat> {
    if t.Some? then Some(ToUnsigned(t.value)) else None
  }

  function EncodeSlot(v: SlotValue): seq<Byte>
    requires SizedSlot(v)
  {
    if v.dead then [1]
    else
      [(if v.time.Some? then 2 else 0) + if v.height.Some? then 4 else 0] +
      (EncodeOption(UnsignedTime(v.time)) + (EncodeOption(v.height) +
        (Varint.Encode(v.storageId) + (Varint.Encode(v.offset) + Varint.Encode(v.size)))))
  }

  function DecodeOption(present: bool, s: seq<Byte>): Option<(Option<nat>, seq<Byte>)> {
    if !present then Some((None, s))
    else
      match Varint.Decode(s)
      case None => None
      case Some((v, rest)) => Some((Some(v), rest))
  }

  function DecodeSlot(s: seq<Byte>): (r: Option<SlotValue>) {
    if s == [] || s[0] >= 8 then None
    else if s[0] % 2 == 1 then Some(DeadSlot)
    else
      match DecodeOption((s[0] / 2) % 2 == 1, s[1..])
      case None => None
      case Some((time, s1)) =>
        match DecodeOption(s[0] / 4 == 1, s1)
        case None => None
        case Some((height, s2)) =>
          match DecodeLocation(s2)
          case None => None
          case Some((id, offset, size)) =>
            Some(SlotValue(false, if time.Some? then Some(ToSigned(time.value)) else None, height, id, offset, size))
  }

  function DecodeLocation(s: seq<Byte>): Option<(nat, nat, nat)> {
    match Varint.Decode(s)
    case None => None
    case Some((id, s1)) =>
      if id >= 256 then None
      else
        match Varint.Decode(s1)
        case None => None
        case Some((offset, s2)) =>
          match Varint.Decode(s2)
          case None => None
          case Some((size, _)) => Some((id, offset, size))
  }

  lemma OptionRoundTrip(v: Option<nat>, rest: seq<Byte>)
    requires v.Some? ==> v.value < TWO_64
    ensures DecodeOption(v.Some?, EncodeOption(v) + rest) == Some((v, rest))
  {
    if v.Some? {
      Varint.RoundTrip(v.value, rest);
    } else {
      assert [] + rest == rest;
    }
  }

  lemma LocationRoundTrip(id: nat, offset: nat, size: nat)
    requires id < 256 && offset < TWO_64 && size < TWO_64
    ensures DecodeLocation(Varint.Encode(id) + (Varint.Encode(offset) + Varint.Encode(size))) == Some((id, offset, size))
  {
    hide Varint.Encode, Varint.Decode;
    Varint.RoundTrip(id, Varint.Encode(offset) + Varint.Encode(size));
    Varint.RoundTrip(offset, Varint.Encode(size));
    assert Varint.Encode(size) + [] == Varint.Encode(size);
    Varint.RoundTrip(size, []);
  }

  /** A stored slot reads back as itself, negative times included; a dead slot keeps only its deadness. */
  lemma SlotRoundTrip(v: SlotValue)
    requires SizedSlot(v)
    ensures DecodeSlot(EncodeSlot(v)) == Some(if v.dead then DeadSlot else v)
  {
    hide Varint.Encode, Varint.Decode, DecodeOption, EncodeOption, DecodeLocation;
    if !v.dead {
      var s3 := Varint.Encode(v.storageId) + (Varint.Encode(v.offset) + Varint.Encode(v.size));
      var s2 := EncodeOption(v.height) + s3;
      var s1 := EncodeOption(UnsignedTime(v.time)) + s2;
      assert EncodeSlot(v)[1..] == s1;
      OptionRoundTrip(UnsignedTime(v.time), s2);
      OptionRoundTrip(v.height, s3);
      LocationRoundTrip(v.storageId, v.offset, v.size);
    }
  }

  /** Nothing else is read as a slot's record: unknown flags and storage ids that do not fit a byte are refused. */
  lemma SlotRecordIsProper(s: seq<Byte>)
    ensures DecodeSlot(s).Some? ==>
              && s != [] && s[0] < 8 && (DecodeSlot(s).value.dead <==> s[0] % 2 == 1)
              && DecodeSlot(s).value.storageId < 256
              && (!DecodeSlot(s).value.dead ==>
                    (DecodeSlot(s).value.time.Some? <==> s[0] / 2 % 2 == 1) && (DecodeSlot(s).value.height.Some? <==> s[0] >= 4))
  {
    hide Varint.Decode;
  }

  // ----- the keys a slot wrote -----

  /** An eight-byte hash. */
  type Hash = h: seq<Byte> | |h| == 8 witness [0, 0, 0, 0, 0, 0, 0, 0]

  datatype SlotExtra = SlotExtra(transactions: seq<Hash>, addresses: seq<Hash>)

  function Flatten(hashes: seq<Hash>): (r: seq<Byte>)
    ensures |r| == 8 * |hashes|
  {
    if hashes == [] then [] else hashes[0] + Flatten(hashes[1..])
  }

  function EncodeExtra(v: SlotExtra): seq<Byte> {
    Varint.Encode(|v.transactions|) + (Flatten(v.transactions) +
      (Varint.Encode(|v.addresses|) + Flatten(v.addresses)))
  }

  /** `n` hashes off the front, or None when the input is too short (the program panics). */
  function TakeHashes(s: seq<Byte>, n: nat): Option<(seq<Hash>, seq<Byte>)>
    decreases n
  {
    if n == 0 then Some(([], s))
    else if |s| < 8 then None
    else
      match TakeHashes(s[8..], n - 1)
      case None => None
      case Some((hashes, rest)) => Some(([s[..8]] + hashes, rest))
  }

  function DecodeHashes(s: seq<Byte>): Option<(seq<Hash>, seq<Byte>)> {
    match Varint.Decode(s)
    case None => None
    case Some((n, rest)) => TakeHashes(rest, n)
  }

  function DecodeExtra(s: seq<Byte>): (r: Option<SlotExtra>) {
    match DecodeHashes(s)
    case None => None
    case Some((transactions, s1)) =>
      match DecodeHashes(s1)
      case None => None
      case Some((addresses, rest)) => if rest == [] then Some(SlotExtra(transactions, addresses)) else None
  }

  lemma {:induction false} TakeFlattened(hashes: seq<Hash>, rest: seq<Byte>)
    ensures TakeHashes(Flatten(hashes) + rest, |hashes|) == Some((hashes, rest))
    decreases |hashes|
  {
    var s := Flatten(hashes) + rest;
    if hashes == [] {
      assert s == rest;
    } else {
      assert s[..8] == hashes[0] && s[8..] == Flatten(hashes[1..]) + rest;
      TakeFlattened(hashes[1..], rest);
      assert [hashes[0]] + hashes[1..] == hashes;
    }
  }

  lemma HashesRoundTrip(hashes: seq<Hash>, rest: seq<Byte>)
    requires |hashes| < TWO_64
    ensures DecodeHashes(Varint.Encode(|hashes|) + (Flatten(hashes) + rest)) == Some((hashes, rest))
  {
    Varint.RoundTrip(|hashes|, Flatten(hashes) + rest);
    TakeFlattened(hashes, rest);
  }

  lemma ExtraRoundTrip(v: SlotExtra)
    requires |v.transactions| < TWO_64 && |v.addresses| < TWO_64
    ensures DecodeExtra(EncodeExtra(v)) == Some(v)
  {
    hide Varint.Encode, Varint.Decode, Flatten, DecodeHashes;
    HashesRoundTrip(v.transactions, Varint.Encode(|v.addresses|) + Flatten(v.addresses));
    HashesRoundTrip(v.addresses, []);
    assert Flatten(v.addresses) + [] == Flatten(v.addresses);
  }

  // ----- address rows -----

  datatype Status = Status(
    signature: seq<Byte>, index: nat, err: Option<seq<Byte>>, memo: Option<seq<Byte>>,
    tokenOwner: bool, balanceChanged: bool)

  predicate SizedStatus(v: Status) {
    && |v.signature| == 64 && v.index < TWO_32
    && (v.err.Some? ==> |v.err.value| < TWO_64)
    && (v.memo.Some? ==> |v.memo.value| < TWO_64)
  }

  function Bit(b: bool, weight: nat): nat {
    if b then weight else 0
  }

  function Flags(v: Status): Byte {
    Bit(v.err.Some?, 1) + Bit(v.memo.Some?, 2) + 4 + Bit(v.tokenOwner, 8) + Bit(v.balanceChanged, 16)
  }

  /** Big-endian bytes; four for transaction indexes, eight for slots. */
  function BigEndian(v: nat, n: nat): (r: seq<Byte>)
    ensures |r| == n
  {
    if n == 0 then [] else BigEndian(v / 256, n - 1) + [v % 256]
  }

  function FromBigEndian(s: seq<Byte>): nat {
    if s == [] then 0 else FromBigEndian(s[..|s| - 1]) * 256 + s[|s| - 1]
  }

  function Pow256(n: nat): nat {
    if n == 0 then 1 else 256 * Pow256(n - 1)
  }

  lemma Widths()
    ensures Pow256(4) == TWO_32 && Pow256(8) == TWO_64
  {
    assert Pow256(0) == 1 && Pow256(1) == 0x100 && Pow256(2) == 0x1_0000 && Pow256(3) == 0x100_0000;
    assert Pow256(4) == 0x1_0000_0000 && Pow256(5) == 0x100_0000_0000 && Pow256(6) == 0x1_0000_0000_0000;
    assert Pow256(7) == 0x100_0000_0000_0000;
  }

  lemma {:induction false} BigEndianRoundTrip(v: nat, n: nat)
    requires v < Pow256(n)
    ensures FromBigEndian(BigEndian(v, n)) == v
    decreases n
  {
    if n > 0 {
      BigEndianRoundTrip(v / 256, n - 1);
      assert BigEndian(v, n)[..n - 1] == BigEndian(v / 256, n - 1);
    }
  }

  function DecodeBlob(present: bool, s: seq<Byte>): Option<(Option<seq<Byte>>, seq<Byte>)> {
    if !present then Some((None, s))
    else
      match Varint.Decode(s)
      case None => None
      case Some((n, rest)) => if |rest| < n then None else Some((Some(rest[..n]), rest[n..]))
  }

  function EncodeStatus(v: Status): seq<Byte>
    requires SizedStatus(v)
  {
    [Flags(v)] + (v.signature + (BigEndian(v.index, 4) + (EncodeBlob(v.err) + EncodeBlob(v.memo))))
  }

  /** One record off the front; rows written before indexes existed carry no index bit. */
  function DecodeStatus(s: seq<Byte>): (r: Option<(Status, seq<Byte>)>)
    requires s != []
  {
    var flags := s[0];
    if flags >= 32 || |s| < 65 then None
    else
      var hasIndex := flags / 4 % 2 == 1;
      var body := s[65..];
      if hasIndex && |body| < 4 then None
      else
        var index := if hasIndex then FromBigEndian(body[..4]) else 0;
        var s1 := if hasIndex then body[4..] else body;
        match DecodeBlob(flags % 2 == 1, s1)
        case None => None
        case Some((err, s2)) =>
          match DecodeBlob(flags / 2 % 2 == 1, s2)
          case None => None
          case Some((memo, rest)) =>
            Some((Status(s[1..65], index, err, memo, flags / 8 % 2 == 1, flags / 16 % 2 == 1), rest))
  }

  lemma BlobRoundTrip(v: Option<seq<Byte>>, rest: seq<Byte>)
    requires v.Some? ==> |v.value| < TWO_64
    ensures DecodeBlob(v.Some?, EncodeBlob(v) + rest) == Some((v, rest))
  {
    if v.Some? {
      assert EncodeBlob(v) + rest == Varint.Encode(|v.value|) + (v.value + rest);
      Varint.RoundTrip(|v.value|, v.value + rest);
    } else {
      assert [] + rest == rest;
    }
  }

  lemma FlagBits(v: Status)
    ensures var f := Flags(v);
      && f < 32
      && (f % 2 == 1) == v.err.Some? && (f / 2 % 2 == 1) == v.memo.Some? && f / 4 % 2 == 1
      && (f / 8 % 2 == 1) == v.tokenOwner && (f / 16 % 2 == 1) == v.balanceChanged
  {
  }

  lemma StatusRoundTrip(v: Status, rest: seq<Byte>)
    requires SizedStatus(v)
    ensures DecodeStatus(EncodeStatus(v) + rest) == Some((v, rest))
    ensures EncodeStatus(v) != []
  {
    hide Varint.Encode, Varint.Decode, EncodeBlob, DecodeBlob, Flags, BigEndian, FromBigEndian, Pow256;
    FlagBits(v);
    Widths();
    BigEndianRoundTrip(v.index, 4);
    var s := EncodeStatus(v) + rest;
    var s2 := EncodeBlob(v.memo) + rest;
    var s1 := EncodeBlob(v.err) + s2;
    assert s[1..65] == v.signature;
    assert s[65..] == BigEndian(v.index, 4) + s1;
    assert s[65..][..4] == BigEndian(v.index, 4) && s[65..][4..] == s1;
    BlobRoundTrip(v.err, s2);
    BlobRoundTrip(v.memo, rest);
  }

  /** The layout written before rows stored transaction indexes. */
  function EncodeOlderStatus(v: Status): seq<Byte>
    requires SizedStatus(v)
  {
    [Flags(v) - 4] + (v.signature + (EncodeBlob(v.err) + EncodeBlob(v.memo)))
  }

  /** Older row records still decode, with index 0. */
  lemma OlderStatusDecodes(v: Status, rest: seq<Byte>)
    requires SizedStatus(v)
    ensures DecodeStatus(EncodeOlderStatus(v) + rest) == Some((v.(index := 0), rest))
  {
    hide Varint.Encode, Varint.Decode, EncodeBlob, DecodeBlob, Flags, BigEndian, FromBigEndian;
    FlagBits(v);
    var s := EncodeOlderStatus(v) + rest;
    var s2 := EncodeBlob(v.memo) + rest;
    var s1 := EncodeBlob(v.err) + s2;
    assert s[1..65] == v.signature;
    assert s[65..] == s1;
    OlderFlagBits(Flags(v));
    BlobRoundTrip(v.err, s2);
    BlobRoundTrip(v.memo, rest);
  }

  /** A record that decodes has known flags and a whole signature, and the flags say what follows. */
  lemma StatusIsProper(s: seq<Byte>)
    requires s != [] && DecodeStatus(s).Some?
    ensures var v := DecodeStatus(s).value.0;
      && s[0] < 32 && |s| >= 65 && v.signature == s[1..65]
      && (s[0] == Flags(v) || (s[0] == Flags(v) - 4 && v.index == 0))
  {
    hide Varint.Decode, FromBigEndian, DecodeBlob;
    var hasIndex := s[0] / 4 % 2 == 1;
    var s1 := if hasIndex then s[65..][4..] else s[65..];
    BlobPresence(s[0] % 2 == 1, s1);
    BlobPresence(s[0] / 2 % 2 == 1, DecodeBlob(s[0] % 2 == 1, s1).value.1);
    BitSum(s[0]);
  }

  lemma BlobPresence(present: bool, s: seq<Byte>)
    ensures DecodeBlob(present, s).Some? ==> (DecodeBlob(present, s).value.0.Some? <==> present)
  {
    hide Varint.Decode;
  }

  lemma BitSum(f: nat)
    requires f < 32
    ensures f == Bit(f % 2 == 1, 1) + Bit(f / 2 % 2 == 1, 2) + Bit(f / 4 % 2 == 1, 4) + Bit(f / 8 % 2 == 1, 8) + Bit(f / 16 % 2 == 1, 16)
  {
  }

  lemma OlderFlagBits(f: nat)
    requires f < 32 && f / 4 % 2 == 1
    ensures f >= 4 && (f - 4) % 2 == f % 2 && (f - 4) / 2 % 2 == f / 2 % 2 && (f - 4) / 4 % 2 == 0
    ensures (f - 4) / 8 % 2 == f / 8 % 2 && (f - 4) / 16 % 2 == f / 16 % 2
  {
  }

  ghost predicate SizedRow(row: seq<Status>) {
    forall v :: v in row ==> SizedStatus(v)
  }

  ghost function EncodeRow(row: seq<Status>): seq<Byte>
    requires SizedRow(row)
  {
    if row == [] then [] else EncodeStatus(row[0]) + EncodeRow(row[1..])
  }

  /** What decoding record after record makes of any bytes. */
  ghost function DecodeAll(s: seq<Byte>): Option<seq<Status>>
    decreases |s|
  {
    if s == [] then Some([])
    else
      match DecodeStatus(s)
      case None => None
      case Some((v, rest)) =>
        DecodeStatusShrinks(s);
        match DecodeAll(rest)
        case None => None
        case Some(vs) => Some([v] + vs)
  }

  lemma DecodeStatusShrinks(s: seq<Byte>)
    requires s != []
    ensures DecodeStatus(s).Some? ==> |DecodeStatus(s).value.1| < |s|
  {
  }

  /** The caller's loop: decode until the row is used up, or fail on a malformed row. */
  method DecodeRow(bytes: seq<Byte>) returns (r: Option<seq<Status>>)
    ensures r == DecodeAll(bytes)
  {
    hide DecodeStatus;
    var slice := bytes;
    var done: seq<Status> := [];
    assert forall vs: seq<Status> :: done + vs == vs;
    while slice != []
      invariant DecodeAll(bytes) == match DecodeAll(slice)
                                    case None => None
                                    case Some(vs) => Some(done + vs)
      decreases |slice|
    {
      DecodeStatusShrinks(slice);
      var next := DecodeStatus(slice);
      if next.None? {
        return None;
      }
      assert forall vs :: done + ([next.value.0] + vs) == (done + [next.value.0]) + vs;
      done := done + [next.value.0];
      slice := next.value.1;
    }
    assert done + [] == done;
    r := Some(done);
  }

  lemma DecodeFirst(s: seq<Byte>, v: Status, rest: seq<Byte>)
    requires s != [] && DecodeStatus(s) == Some((v, rest)) && DecodeAll(rest).Some?
    ensures DecodeAll(s) == Some([v] + DecodeAll(rest).value)
  {
    hide DecodeStatus;
  }

  /** Repeated decoding of a stored row gives back the list that was encoded. */
  lemma {:induction false} RowRoundTrip(row: seq<Status>)
    requires SizedRow(row)
    ensures DecodeAll(EncodeRow(row)) == Some(row)
    decreases |row|
  {
    if row != [] {
      hide DecodeStatus, EncodeStatus, SizedStatus, DecodeAll;
      StatusRoundTrip(row[0], EncodeRow(row[1..]));
      RowRoundTrip(row[1..]);
      DecodeFirst(EncodeRow(row), row[0], EncodeRow(row[1..]));
      assert row == [row[0]] + row[1..];
    } else {
      assert DecodeAll([]) == Some([]);
    }
  }

  // ----- keys -----

  /** The order RocksDB keeps keys in. */
  predicate KeyLess(a: seq<Byte>, b: seq<Byte>) {
    if a == [] then b != []
    else if b == [] then false
    else a[0] < b[0] || (a[0] == b[0] && KeyLess(a[1..], b[1..]))
  }

  lemma {:induction false} KeyLessAppend(a: seq<Byte>, b: seq<Byte>, x: seq<Byte>, y: seq<Byte>)
    requires |a| == |b|
    ensures KeyLess(a + x, b + y) <==> KeyLess(a, b) || (a == b && KeyLess(x, y))
    decreases |a|
  {
    if a == [] {
      assert a + x == x && b + y == y;
      assert !KeyLess(a, b);
    } else {
      assert (a + x)[1..] == a[1..] + x && (b + y)[1..] == b[1..] + y;
      KeyLessAppend(a[1..], b[1..], x, y);
      assert a == b <==> a[0] == b[0] && a[1..] == b[1..];
    }
  }

  /** Big-endian keys of one width sort as their numbers. */
  lemma {:induction false} BigEndianOrder(v: nat, w: nat, n: nat)
    requires v < Pow256(n) && w < Pow256(n)
    ensures KeyLess(BigEndian(v, n), BigEndian(w, n)) <==> v < w
    ensures BigEndian(v, n) == BigEndian(w, n) <==> v == w
    decreases n
  {
    if n > 0 {
      BigEndianOrder(v / 256, w / 256, n - 1);
      var a, b := BigEndian(v / 256, n - 1), BigEndian(w / 256, n - 1);
      KeyLessAppend(a, b, [v % 256], [w % 256]);
      assert KeyLess([v % 256], [w % 256]) <==> v % 256 < w % 256;
      assert a + [v % 256] == b + [w % 256] <==> a == b && v % 256 == w % 256 by {
        if a + [v % 256] == b + [w % 256] {
          assert (a + [v % 256])[..n - 1] == a && (b + [w % 256])[..n - 1] == b;
          assert (a + [v % 256])[n - 1] == v % 256 && (b + [w % 256])[n - 1] == w % 256;
        }
      }
    }
  }

  /** `SfaIndex::concat`: the row of an address at a slot. */
  function RowKey(address: Hash, slot: Slot): (r: seq<Byte>)
    ensures |r| == 16
  {
    address + BigEndian(slot, 8)
  }

  /** Rows sort by address first, then by slot, so one address is one run of ascending slots. */
  lemma RowKeyOrder(a: Hash, s: Slot, b: Hash, t: Slot)
    requires s < TWO_64 && t < TWO_64
    ensures KeyLess(RowKey(a, s), RowKey(b, t)) <==> KeyLess(a, b) || (a == b && s < t)
    ensures RowKey(a, s) == RowKey(b, t) <==> a == b && s == t
  {
    Widths();
    BigEndianOrder(s, t, 8);
    KeyLessAppend(a, b, BigEndian(s, 8), BigEndian(t, 8));
    if RowKey(a, s) == RowKey(b, t) {
      assert RowKey(a, s)[..8] == a && RowKey(b, t)[..8] == b;
      assert RowKey(a, s)[8..] == BigEndian(s, 8) && RowKey(b, t)[8..] == BigEndian(t, 8);
    }
  }
}
