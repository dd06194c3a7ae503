/**
 Encoding of a confirmed block with transaction offsets (src/source/block.rs).
 Fields follow Protocol Buffers Encoding: keys are varints of tag and wire type,
 strings and messages are length-delimited records.
 */
module Wire {
  import opened Common
  import Varint

  // ----- fields -----

  datatype Field = Number(tag: nat, value: nat) | Bytes(tag: nat, bytes: seq<Byte>)

  ghost predicate Sized(f: Field) {
    && 0 < f.tag < 0x2000_0000
    && match f
       case Number(_, value) => value < TWO_64
       case Bytes(_, bytes) => |bytes| < TWO_64
  }

  function EncodeField(f: Field): seq<Byte> {
    match f
    case Number(tag, value) => Varint.Encode(tag * 8) + Varint.Encode(value)
    case Bytes(tag, bytes) => Varint.Encode(tag * 8 + 2) + (Varint.Encode(|bytes|) + bytes)
  }

  function EncodeFields(fs: seq<Field>): seq<Byte> {
    if fs == [] then [] else EncodeField(fs[0]) + EncodeFields(fs[1..])
  }

  /** An independent reader of the wire format. */
  function ParseField(s: seq<Byte>): (r: Option<(Field, seq<Byte>)>)
    ensures r.Some? ==> |r.value.1| < |s|
  {
    match Varint.Decode(s)
    case None => None
    case Some((key, s1)) =>
      match Varint.Decode(s1)
      case None => None
      case Some((n, s2)) =>
        if key % 8 == 0 then Some((Number(key / 8, n), s2))
        else if key % 8 == 2 && n <= |s2| then Some((Bytes(key / 8, s2[..n]), s2[n..]))
        else None
  }

  function ParseFields(s: seq<Byte>): (r: Option<seq<Field>>)
    decreases |s|
  {
    if s == [] then Some([])
    else
      match ParseField(s)
      case None => None
      case Some((f, rest)) =>
        match ParseFields(rest)
        case None => None
        case Some(fs) => Some([f] + fs)
  }

  lemma FieldRoundTrip(f: Field, rest: seq<Byte>)
    requires Sized(f)
    ensures ParseField(EncodeField(f) + rest) == Some((f, rest)) && EncodeField(f) != []
  {
    hide Varint.Encode, Varint.Decode;
    var key := f.tag * 8 + if f.Number? then 0 else 2;
    Varint.NonEmpty(key);
    match f {
      case Number(tag, value) =>
        assert EncodeField(f) + rest == Varint.Encode(key) + (Varint.Encode(value) + rest);
        Varint.RoundTrip(key, Varint.Encode(value) + rest);
        Varint.RoundTrip(value, rest);
      case Bytes(tag, bytes) =>
        var s2 := bytes + rest;
        assert EncodeField(f) + rest == Varint.Encode(key) + (Varint.Encode(|bytes|) + s2);
        Varint.RoundTrip(key, Varint.Encode(|bytes|) + s2);
        Varint.RoundTrip(|bytes|, s2);
        assert s2[..|bytes|] == bytes && s2[|bytes|..] == rest;
    }
  }

  /** Reading back what was written gives the same fields in the same order. */
  lemma {:induction false} FieldsRoundTrip(fs: seq<Field>)
    requires forall f :: f in fs ==> Sized(f)
    ensures ParseFields(EncodeFields(fs)) == Some(fs)
  {
    if fs != [] {
      hide EncodeField, ParseField, Sized;
      FieldRoundTrip(fs[0], EncodeFields(fs[1..]));
      FieldsRoundTrip(fs[1..]);
      assert fs == [fs[0]] + fs[1..];
    }
  }

  lemma {:induction false} EncodeConcat(a: seq<Field>, b: seq<Field>)
    ensures EncodeFields(a + b) == EncodeFields(a) + EncodeFields(b)
  {
    if a == [] {
      assert a + b == b;
    } else {
      assert (a + b)[1..] == a[1..] + b;
      EncodeConcat(a[1..], b);
    }
  }

  // ----- declared lengths -----

  function KeyLen(tag: nat): nat {
    Varint.Len(tag * 8)
  }

  function BytesLen(tag: nat, len: nat): nat {
    KeyLen(tag) + Varint.Len(len) + len
  }

  function NumberLen(tag: nat, value: nat): nat {
    KeyLen(tag) + Varint.Len(value)
  }

  lemma KeyLenBytes(tag: nat)
    requires 0 < tag < 16
    ensures Varint.Len(tag * 8 + 2) == KeyLen(tag) && |Varint.Encode(tag * 8)| == KeyLen(tag)
    ensures |Varint.Encode(tag * 8 + 2)| == KeyLen(tag)
  {
  }

  function FieldSize(f: Field): nat {
    match f
    case Number(tag, value) => NumberLen(tag, value)
    case Bytes(tag, bytes) => BytesLen(tag, |bytes|)
  }

  function FieldsSize(fs: seq<Field>): nat {
    if fs == [] then 0 else FieldSize(fs[0]) + FieldsSize(fs[1..])
  }

  /** Every field fits its format and its key fits one byte. */
  ghost predicate AllSized(fs: seq<Field>) {
    forall i :: 0 <= i < |fs| ==> Sized(fs[i]) && fs[i].tag < 16
  }

  lemma EncodedFieldSize(f: Field)
    requires Sized(f) && f.tag < 16
    ensures |EncodeField(f)| == FieldSize(f)
  {
    hide Varint.Len, Varint.Encode, KeyLen;
    KeyLenBytes(f.tag);
    Varint.EncodedLen(if f.Number? then f.value else |f.bytes|);
  }

  lemma {:induction false} EncodedFieldsSize(fs: seq<Field>)
    requires AllSized(fs)
    ensures |EncodeFields(fs)| == FieldsSize(fs)
  {
    if fs != [] {
      hide Sized, EncodeField, FieldSize;
      EncodedFieldSize(fs[0]);
      EncodedFieldsSize(fs[1..]);
    }
  }

  lemma {:induction false} FieldsSizeConcat(a: seq<Field>, b: seq<Field>)
    ensures FieldsSize(a + b) == FieldsSize(a) + FieldsSize(b)
  {
    if a == [] {
      assert a + b == b;
    } else {
      assert (a + b)[1..] == a[1..] + b;
      FieldsSizeConcat(a[1..], b);
    }
  }

  /** A field that is written only when present. */
  function Opt(present: bool, f: Field): seq<Field> {
    if present then [f] else []
  }

  function ValueOr<T>(o: Option<T>, default: T): T {
    if o.Some? then o.value else default
  }

  lemma OptSize(present: bool, f: Field, rest: seq<Field>)
    ensures FieldsSize(Opt(present, f) + rest) == (if present then FieldSize(f) else 0) + FieldsSize(rest)
    ensures (present ==> Sized(f) && f.tag < 16) && AllSized(rest) ==> AllSized(Opt(present, f) + rest)
  {
    hide FieldSize, Sized;
    FieldsSizeConcat(Opt(present, f), rest);
  }

  // ----- rewards -----

  datatype Reward = Reward(
    pubkey: seq<Byte>, lamports: int, postBalance: nat, kind: Option<nat>,
    commission: Option<nat>, commissionBps: Option<nat>)

  ghost predicate SizedReward(r: Reward) {
    && |r.pubkey| < TWO_32 && -TWO_63 <= r.lamports < TWO_63 && r.postBalance < TWO_64
    && (r.kind.Some? ==> 1 <= r.kind.value <= 6)
    && (r.commission.Some? ==> r.commission.value < 256)
    && (r.commissionBps.Some? ==> r.commissionBps.value < 0x1_0000)
  }

  /** Decimal text, as `to_string` and the table of small numbers produce it. */
  function Decimal(n: nat): (r: seq<Byte>) {
    if n < 10 then [48 + n] else Decimal(n / 10) + [48 + n % 10]
  }

  lemma DecimalShort(n: nat)
    requires n < 0x1_0000
    ensures 1 <= |Decimal(n)| <= 5
  {
    DecimalSteps(n, 5);
  }

  function Pow10(k: nat): nat {
    if k == 0 then 1 else 10 * Pow10(k - 1)
  }

  lemma {:induction false} DecimalSteps(n: nat, k: nat)
    requires 0 < k && n < Pow10(k)
    ensures 1 <= |Decimal(n)| <= k
    decreases k
  {
    if n >= 10 {
      DecimalSteps(n / 10, k - 1);
    }
  }

  function RewardFields(r: Reward): seq<Field> {
    Opt(r.pubkey != [], Bytes(1, r.pubkey)) +
    (Opt(r.lamports != 0, Number(2, ToUnsigned(r.lamports))) +
     (Opt(r.postBalance != 0, Number(3, r.postBalance)) +
      (Opt(r.kind.Some?, Number(4, ValueOr(r.kind, 0))) +
       (Opt(r.commission.Some?, Bytes(5, Decimal(ValueOr(r.commission, 0)))) +
        (Opt(r.commissionBps.Some?, Bytes(6, Decimal(ValueOr(r.commissionBps, 0)))) + [])))))
  }

  /** `encoded_len` of the reward wrapper. */
  function RewardLen(r: Reward): nat {
    (if r.pubkey != [] then BytesLen(1, |r.pubkey|) else 0) +
    (if r.lamports != 0 then NumberLen(2, ToUnsigned(r.lamports)) else 0) +
    (if r.postBalance != 0 then NumberLen(3, r.postBalance) else 0) +
    (if r.kind.Some? then NumberLen(4, r.kind.value) else 0) +
    (if r.commission.Some? then BytesLen(5, |Decimal(r.commission.value)|) else 0) +
    (if r.commissionBps.Some? then BytesLen(6, |Decimal(r.commissionBps.value)|) else 0)
  }

  /** The length a reward declares is the number of bytes it writes. */
  lemma RewardDeclaredLength(r: Reward)
    requires SizedReward(r)
    ensures |EncodeFields(RewardFields(r))| == RewardLen(r) < TWO_32 + 200
    ensures AllSized(RewardFields(r))
  {
    RewardParts(r);
    RewardBound(r);
    EncodedFieldsSize(RewardFields(r));
  }

  lemma RewardParts(r: Reward)
    requires SizedReward(r)
    ensures FieldsSize(RewardFields(r)) == RewardLen(r) && AllSized(RewardFields(r))
  {
    hide FieldsSize, AllSized, Decimal, NumberLen, BytesLen, Opt;
    DecimalShort(ValueOr(r.commission, 0));
    DecimalShort(ValueOr(r.commissionBps, 0));
    var f5, f6 := Bytes(5, Decimal(ValueOr(r.commission, 0))), Bytes(6, Decimal(ValueOr(r.commissionBps, 0)));
    NothingSize();
    ThreeFields(r.kind.Some?, Number(4, ValueOr(r.kind, 0)), r.commission.Some?, f5, r.commissionBps.Some?, f6, []);
    ThreeFields(r.pubkey != [], Bytes(1, r.pubkey), r.lamports != 0, Number(2, ToUnsigned(r.lamports)),
                r.postBalance != 0, Number(3, r.postBalance),
                Opt(r.kind.Some?, Number(4, ValueOr(r.kind, 0))) +
                (Opt(r.commission.Some?, f5) + (Opt(r.commissionBps.Some?, f6) + [])));
  }

  lemma ThreeFields(p1: bool, f1: Field, p2: bool, f2: Field, p3: bool, f3: Field, rest: seq<Field>)
    requires AllSized(rest)
    requires (p1 ==> Sized(f1) && f1.tag < 16) && (p2 ==> Sized(f2) && f2.tag < 16) && (p3 ==> Sized(f3) && f3.tag < 16)
    ensures var all := Opt(p1, f1) + (Opt(p2, f2) + (Opt(p3, f3) + rest));
      && AllSized(all)
      && FieldsSize(all) == (if p1 then FieldSize(f1) else 0) + (if p2 then FieldSize(f2) else 0)
                            + (if p3 then FieldSize(f3) else 0) + FieldsSize(rest)
  {
    hide FieldsSize, AllSized, Opt, FieldSize, Sized;
    OptSize(p3, f3, rest);
    OptSize(p2, f2, Opt(p3, f3) + rest);
    OptSize(p1, f1, Opt(p2, f2) + (Opt(p3, f3) + rest));
  }

  lemma NothingSize()
    ensures FieldsSize([]) == 0 && AllSized([])
  {
  }

  lemma RewardBound(r: Reward)
    requires SizedReward(r)
    ensures RewardLen(r) < TWO_32 + 200
  {
    DecimalShort(ValueOr(r.commission, 0));
    DecimalShort(ValueOr(r.commissionBps, 0));
    hide Decimal;
  }
}
