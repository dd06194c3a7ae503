/**
 The RocksDB indexes of the stored slots (src/storage/rocksdb.rs): what a push
 writes and what an eviction deletes, in terms of encoded keys and values.
 */
module Index {
  import opened Common
  import opened Codec

  type Column = map<seq<Byte>, seq<Byte>>

  datatype Tx = Tx(key: Hash, offset: nat, size: nat, err: Option<seq<Byte>>, index: nat)

  datatype AddressRow = AddressRow(address: Hash, statuses: seq<Status>)

  /** A block as the indexes see it. */
  datatype Block = Block(txs: seq<Tx>, rows: seq<AddressRow>)

  /** What the index stores for a transaction of `slot`. */
  function ValueOf(slot: Slot, tx: Tx): TransactionIndex {
    TransactionIndex(slot, tx.offset, tx.size, tx.err, tx.index)
  }

  /** A slot of the ring; no block means it was skipped. */
  datatype Entry = Entry(slot: Slot, block: Option<Block>, value: SlotValue)

  datatype Kind = Transactions | Addresses | Extras | Slots

  datatype Db = Db(transactions: Column, addresses: Column, extras: Column, slots: Column)

  ghost predicate ProperBlock(b: Block) {
    && |b.txs| < TWO_64 && |b.rows| < TWO_64
    && (forall i :: 0 <= i < |b.txs| ==> Sized(ValueOf(0, b.txs[i])))
    && forall i :: 0 <= i < |b.rows| ==> SizedRow(b.rows[i].statuses)
  }

  ghost predicate Proper(e: Entry) {
    && e.slot < TWO_64 && SizedSlot(e.value)
    && (if e.block.Some? then ProperBlock(e.block.value) && !e.value.dead else e.value == DeadSlot)
  }

  // ----- what a slot contributes -----

  function SlotKey(slot: Slot): (r: seq<Byte>) {
    BigEndian(slot, 8)
  }

  function TxColumn(slot: Slot, txs: seq<Tx>): Column {
    if txs == [] then map[]
    else var n := |txs| - 1; TxColumn(slot, txs[..n])[txs[n].key := EncodeTransaction(ValueOf(slot, txs[n]))]
  }

  ghost function RowColumn(slot: Slot, rows: seq<AddressRow>): Column
    requires forall i :: 0 <= i < |rows| ==> SizedRow(rows[i].statuses)
  {
    if rows == [] then map[]
    else var n := |rows| - 1; RowColumn(slot, rows[..n])[RowKey(rows[n].address, slot) := EncodeRow(rows[n].statuses)]
  }

  lemma NoRows(slot: Slot)
    ensures RowColumn(slot, []) == map[]
  {
  }

  lemma OneRowMore(slot: Slot, rows: seq<AddressRow>, i: nat)
    requires i < |rows| && forall k :: 0 <= k < |rows| ==> SizedRow(rows[k].statuses)
    ensures RowColumn(slot, rows[..i + 1])
            == RowColumn(slot, rows[..i])[RowKey(rows[i].address, slot) := EncodeRow(rows[i].statuses)]
  {
    hide EncodeRow, RowKey, SizedRow;
    assert rows[..i + 1][..i] == rows[..i];
  }

  function KeysOf(b: Block): SlotExtra {
    SlotExtra(seq(|b.txs|, i requires 0 <= i < |b.txs| => b.txs[i].key),
              seq(|b.rows|, i requires 0 <= i < |b.rows| => b.rows[i].address))
  }

  ghost function Part(kind: Kind, e: Entry): Column
    requires Proper(e)
  {
    match kind
    case Slots => map[SlotKey(e.slot) := EncodeSlot(e.value)]
    case Transactions => if e.block.None? then map[] else TxColumn(e.slot, e.block.value.txs)
    case Addresses => if e.block.None? then map[] else RowColumn(e.slot, e.block.value.rows)
    case Extras => if e.block.None? then map[] else map[SlotKey(e.slot) := EncodeExtra(KeysOf(e.block.value))]
  }

  lemma {:induction false} TxKeys(slot: Slot, txs: seq<Tx>)
    ensures forall k :: k in TxColumn(slot, txs) <==> exists i :: 0 <= i < |txs| && txs[i].key == k
  {
    hide EncodeTransaction;
    if txs != [] {
      var n := |txs| - 1;
      TxKeys(slot, txs[..n]);
      forall k ensures k in TxColumn(slot, txs) <==> exists i :: 0 <= i < |txs| && txs[i].key == k {
        if k in TxColumn(slot, txs[..n]) {
          var i :| 0 <= i < |txs[..n]| && txs[..n][i].key == k;
          assert txs[i].key == k;
        }
        if i :| 0 <= i < |txs| && txs[i].key == k {
          assert i < n ==> txs[..n][i].key == k;
        }
      }
    }
  }

  ghost predicate Writes(rows: seq<AddressRow>, slot: Slot, k: seq<Byte>) {
    exists i :: 0 <= i < |rows| && RowKey(rows[i].address, slot) == k
  }

  lemma {:induction false} RowKeys(slot: Slot, rows: seq<AddressRow>)
    requires forall i :: 0 <= i < |rows| ==> SizedRow(rows[i].statuses)
    ensures forall k :: k in RowColumn(slot, rows) <==> Writes(rows, slot, k)
  {
    hide RowKey, EncodeRow, SizedRow, Writes;
    if rows == [] {
      forall k ensures !Writes(rows, slot, k) {
        NoWrites(slot, k);
      }
    } else {
      var n := |rows| - 1;
      RowKeys(slot, rows[..n]);
      forall k ensures Writes(rows, slot, k) <==> Writes(rows[..n], slot, k) || RowKey(rows[n].address, slot) == k {
        WritesOneMore(rows, slot, k);
      }
    }
  }

  lemma NoWrites(slot: Slot, k: seq<Byte>)
    ensures !Writes([], slot, k)
  {
  }

  lemma WritesOneMore(rows: seq<AddressRow>, slot: Slot, k: seq<Byte>)
    requires rows != []
    ensures Writes(rows, slot, k)
            <==> Writes(rows[..|rows| - 1], slot, k) || RowKey(rows[|rows| - 1].address, slot) == k
  {
    hide RowKey;
    var n := |rows| - 1;
    if Writes(rows[..n], slot, k) {
      var i :| 0 <= i < |rows[..n]| && RowKey(rows[..n][i].address, slot) == k;
      assert rows[i] == rows[..n][i];
    }
    if i :| 0 <= i < |rows| && RowKey(rows[i].address, slot) == k {
      assert i < n ==> rows[..n][i] == rows[i];
    }
  }

  // ----- columns as unions over slots -----

  ghost predicate AllProper(es: seq<Entry>) {
    forall i :: 0 <= i < |es| ==> Proper(es[i])
  }

  ghost function Merged(kind: Kind, es: seq<Entry>): Column
    requires AllProper(es)
  {
    if es == [] then map[]
    else var n := |es| - 1; Merged(kind, es[..n]) + Part(kind, es[n])
  }

  /** No two slots write the same key. */
  ghost predicate Apart(kind: Kind, es: seq<Entry>)
    requires AllProper(es)
  {
    forall i, j :: 0 <= i < j < |es| ==> Part(kind, es[i]).Keys !! Part(kind, es[j]).Keys
  }

  lemma {:induction false} MergedKeys(kind: Kind, es: seq<Entry>, k: seq<Byte>)
    requires AllProper(es) && k in Merged(kind, es)
    ensures exists i :: 0 <= i < |es| && k in Part(kind, es[i])
  {
    hide Part, Proper;
    var n := |es| - 1;
    if k !in Part(kind, es[n]) {
      MergedKeys(kind, es[..n], k);
      var i :| 0 <= i < |es[..n]| && k in Part(kind, es[..n][i]);
      assert k in Part(kind, es[i]);
    }
  }

  lemma {:induction false} MergedHas(kind: Kind, es: seq<Entry>, i: nat, k: seq<Byte>)
    requires AllProper(es) && Apart(kind, es) && i < |es| && k in Part(kind, es[i])
    ensures k in Merged(kind, es) && Merged(kind, es)[k] == Part(kind, es[i])[k]
  {
    hide Part, Proper;
    var n := |es| - 1;
    if i < n {
      MergedHas(kind, es[..n], i, k);
      assert k !in Part(kind, es[n]);
    }
  }

  /** Two lists of slots with the same members have the same columns. */
  lemma MergedSame(kind: Kind, a: seq<Entry>, b: seq<Entry>)
    requires AllProper(a) && AllProper(b) && Apart(kind, a) && Apart(kind, b)
    requires forall e :: e in a <==> e in b
    ensures Merged(kind, a) == Merged(kind, b)
  {
    hide Part, Proper, Merged;
    MergedWithin(kind, a, b);
    MergedWithin(kind, b, a);
  }

  lemma MergedWithin(kind: Kind, a: seq<Entry>, b: seq<Entry>)
    requires AllProper(a) && AllProper(b) && Apart(kind, a) && Apart(kind, b)
    requires forall e :: e in a ==> e in b
    ensures forall k :: k in Merged(kind, a) ==> k in Merged(kind, b) && Merged(kind, b)[k] == Merged(kind, a)[k]
  {
    hide Part, Proper, Merged;
    forall k | k in Merged(kind, a) ensures k in Merged(kind, b) && Merged(kind, b)[k] == Merged(kind, a)[k] {
      MergedKeys(kind, a, k);
      var i :| 0 <= i < |a| && k in Part(kind, a[i]);
      assert a[i] in b;
      var j :| 0 <= j < |b| && b[j] == a[i];
      MergedHas(kind, a, i, k);
      MergedHas(kind, b, j, k);
    }
  }

  /** Deleting one slot's keys leaves the other slots' entries. */
  lemma MergedWithout(kind: Kind, es: seq<Entry>, i: nat)
    requires AllProper(es) && Apart(kind, es) && i < |es| && AllProper(es[..i] + es[i + 1..])
    ensures Merged(kind, es) - Part(kind, es[i]).Keys == Merged(kind, es[..i] + es[i + 1..])
  {
    hide Part, Proper, Merged;
    var rest := es[..i] + es[i + 1..];
    MergedWithin(kind, rest, es);
    forall k | k in Merged(kind, rest) ensures k !in Part(kind, es[i]) {
      KeptElsewhere(kind, es, i, k);
    }
    forall k | k in Merged(kind, es) && k !in Part(kind, es[i]) ensures k in Merged(kind, rest) {
      OtherSlotKeeps(kind, es, i, k);
    }
  }

  lemma KeptElsewhere(kind: Kind, es: seq<Entry>, i: nat, k: seq<Byte>)
    requires AllProper(es) && Apart(kind, es) && i < |es| && AllProper(es[..i] + es[i + 1..])
    requires k in Merged(kind, es[..i] + es[i + 1..])
    ensures k !in Part(kind, es[i])
  {
    hide Part, Proper, Merged;
    var rest := es[..i] + es[i + 1..];
    MergedKeys(kind, rest, k);
    var j :| 0 <= j < |rest| && k in Part(kind, rest[j]);
    assert rest[j] == if j < i then es[j] else es[j + 1];
  }

  lemma OtherSlotKeeps(kind: Kind, es: seq<Entry>, i: nat, k: seq<Byte>)
    requires AllProper(es) && i < |es| && AllProper(es[..i] + es[i + 1..]) && Apart(kind, es[..i] + es[i + 1..])
    requires k in Merged(kind, es) && k !in Part(kind, es[i])
    ensures k in Merged(kind, es[..i] + es[i + 1..])
  {
    hide Part, Proper, Merged, Apart;
    var rest := es[..i] + es[i + 1..];
    MergedKeys(kind, es, k);
    var j :| 0 <= j < |es| && k in Part(kind, es[j]);
    assert es[j] == rest[if j < i then j else j - 1];
    MergedHas(kind, rest, if j < i then j else j - 1, k);
  }

  // ----- what the columns say when they are read back -----

  /** Different transactions and different addresses have different keys. */
  ghost predicate DistinctKeys(b: Block) {
    && (forall i, j :: 0 <= i < j < |b.txs| ==> b.txs[i].key != b.txs[j].key)
    && (forall i, j :: 0 <= i < j < |b.rows| ==> b.rows[i].address != b.rows[j].address)
  }

  /** The stored transaction reads back as itself, unless its error was serialized to nothing. */
  ghost predicate TransactionShown(column: Column, slot: Slot, tx: Tx) {
    && tx.key in column
    && (DecodeTransaction(column[tx.key]) == Some(TransactionIndex(slot, tx.offset, tx.size, tx.err, tx.index))
        <==> tx.err != Some([]))
  }

  /** So does the row of the address at the slot. */
  ghost predicate RowShown(column: Column, slot: Slot, row: AddressRow) {
    RowKey(row.address, slot) in column && DecodeAll(column[RowKey(row.address, slot)]) == Some(row.statuses)
  }

  /** The slot's record: where its block lies, or that it was skipped. */
  ghost predicate RecordShown(db: Db, e: Entry) {
    && SlotKey(e.slot) in db.slots
    && DecodeSlot(db.slots[SlotKey(e.slot)]) == Some(if e.block.Some? then e.value else DeadSlot)
  }

  /** Everything indexed for the block of a slot, read back. */
  ghost predicate BlockShown(db: Db, slot: Slot, b: Block) {
    && (forall i :: 0 <= i < |b.txs| ==> TransactionShown(db.transactions, slot, b.txs[i]))
    && (forall i :: 0 <= i < |b.rows| ==> RowShown(db.addresses, slot, b.rows[i]))
    && SlotKey(slot) in db.extras && DecodeExtra(db.extras[SlotKey(slot)]) == Some(KeysOf(b))
  }

  lemma {:induction false} TxColumnAt(slot: Slot, txs: seq<Tx>, i: nat)
    requires i < |txs| && forall j :: i < j < |txs| ==> txs[j].key != txs[i].key
    ensures txs[i].key in TxColumn(slot, txs) && TxColumn(slot, txs)[txs[i].key] == EncodeTransaction(ValueOf(slot, txs[i]))
  {
    hide EncodeTransaction;
    if i < |txs| - 1 {
      TxColumnAt(slot, txs[..|txs| - 1], i);
    }
  }

  lemma {:induction false} RowColumnAt(slot: Slot, rows: seq<AddressRow>, i: nat)
    requires forall j :: 0 <= j < |rows| ==> SizedRow(rows[j].statuses)
    requires slot < TWO_64 && i < |rows| && forall j :: i < j < |rows| ==> rows[j].address != rows[i].address
    ensures RowKey(rows[i].address, slot) in RowColumn(slot, rows)
    ensures RowColumn(slot, rows)[RowKey(rows[i].address, slot)] == EncodeRow(rows[i].statuses)
  {
    hide EncodeRow, RowKey, SizedRow;
    if i < |rows| - 1 {
      RowColumnAt(slot, rows[..|rows| - 1], i);
      RowKeyOrder(rows[|rows| - 1].address, slot, rows[i].address, slot);
    }
  }

  /** What a slot contributes reads back as the slot's block. */
  lemma PartIsShown(e: Entry, i: nat)
    requires Proper(e) && e.block.Some? && DistinctKeys(e.block.value)
    ensures i < |e.block.value.txs| ==> TransactionShown(Part(Transactions, e), e.slot, e.block.value.txs[i])
    ensures i < |e.block.value.rows| ==> RowShown(Part(Addresses, e), e.slot, e.block.value.rows[i])
  {
    hide EncodeTransaction, DecodeTransaction, EncodeRow, DecodeAll, RowKey, TxColumn, RowColumn, SizedRow;
    var b := e.block.value;
    if i < |b.txs| {
      TxColumnAt(e.slot, b.txs, i);
      assert Sized(ValueOf(0, b.txs[i]));
      TransactionRoundTrip(ValueOf(e.slot, b.txs[i]));
    }
    if i < |b.rows| {
      RowColumnAt(e.slot, b.rows, i);
      RowRoundTrip(b.rows[i].statuses);
    }
  }

  /** A column that agrees with what the slot contributed shows the slot's block. */
  lemma ShownByParts(db: Db, e: Entry)
    requires Proper(e) && e.block.Some? && DistinctKeys(e.block.value)
    requires forall k :: k in Part(Transactions, e) ==> k in db.transactions && db.transactions[k] == Part(Transactions, e)[k]
    requires forall k :: k in Part(Addresses, e) ==> k in db.addresses && db.addresses[k] == Part(Addresses, e)[k]
    requires forall k :: k in Part(Extras, e) ==> k in db.extras && db.extras[k] == Part(Extras, e)[k]
    ensures BlockShown(db, e.slot, e.block.value)
  {
    hide DecodeTransaction, DecodeAll, RowKey, SlotKey, EncodeExtra, DecodeExtra, KeysOf, TxColumn, RowColumn, ProperBlock, SizedSlot, DistinctKeys;
    var b := e.block.value;
    forall i | 0 <= i < |b.txs| ensures TransactionShown(db.transactions, e.slot, b.txs[i]) {
      PartIsShown(e, i);
    }
    forall i | 0 <= i < |b.rows| ensures RowShown(db.addresses, e.slot, b.rows[i]) {
      PartIsShown(e, i);
    }
    KeysRoundTrip(b);
    assert SlotKey(e.slot) in Part(Extras, e);
  }

  lemma KeysRoundTrip(b: Block)
    requires ProperBlock(b)
    ensures DecodeExtra(EncodeExtra(KeysOf(b))) == Some(KeysOf(b))
  {
    hide EncodeExtra, DecodeExtra;
    ExtraRoundTrip(KeysOf(b));
  }

  // ----- requests to the database -----

  /** `AddIndexes` of a slot with a block: one atomic batch. */
  ghost function Added(db: Db, e: Entry): Db
    requires Proper(e) && e.block.Some?
  {
    db.(transactions := db.transactions + Part(Transactions, e),
        addresses := db.addresses + Part(Addresses, e),
        extras := db.extras + Part(Extras, e))
  }

  ghost function Recorded(db: Db, e: Entry): Db
    requires Proper(e)
  {
    db.(slots := db.slots + Part(Slots, e))
  }

  /** `spawn_remove_slot`: the keys to delete are read back from the slot's own record. */
  ghost function Removed(db: Db, slot: Slot, dead: bool): Option<Db> {
    var key := SlotKey(slot);
    var fewer := db.(slots := db.slots - {key});
    if dead then Some(fewer)
    else if key !in db.extras then None
    else
      match DecodeExtra(db.extras[key])
      case None => None
      case Some(x) =>
        Some(fewer.(extras := db.extras - {key},
                    transactions := db.transactions - TxKeySet(x.transactions),
                    addresses := db.addresses - RowKeySet(slot, x.addresses)))
  }

  ghost function TxKeySet(hashes: seq<Hash>): set<seq<Byte>> {
    set i | 0 <= i < |hashes| :: hashes[i]
  }

  ghost function RowKeySet(slot: Slot, hashes: seq<Hash>): set<seq<Byte>> {
    set i | 0 <= i < |hashes| :: RowKey(hashes[i], slot)
  }

  /** Right after its batch, the database shows a block's index entries. */
  lemma AddedIsShown(db: Db, e: Entry)
    requires Proper(e) && e.block.Some? && DistinctKeys(e.block.value)
    ensures BlockShown(Added(db, e), e.slot, e.block.value)
  {
    hide Part, Proper, BlockShown, DistinctKeys;
    ShownByParts(Added(db, e), e);
  }

  // ----- exact contents -----

  /** Proper slots, all different, whose transactions have different keys. */
  ghost predicate Good(es: seq<Entry>) {
    && AllProper(es)
    && (forall i, j :: 0 <= i < j < |es| ==> es[i].slot != es[j].slot)
    && Apart(Transactions, es)
  }

  /** The database that holds exactly the entries of the ring, and of slots indexed ahead of it. */
  ghost function Image(ring: seq<Entry>, ahead: seq<Entry>): Db
    requires AllProper(ring) && AllProper(ring + ahead)
  {
    Db(Merged(Transactions, ring + ahead), Merged(Addresses, ring + ahead), Merged(Extras, ring + ahead), Merged(Slots, ring))
  }

  lemma SlotKeysDiffer(a: Slot, b: Slot)
    requires a < TWO_64 && b < TWO_64 && a != b
    ensures SlotKey(a) != SlotKey(b)
  {
    Widths();
    BigEndianOrder(a, b, 8);
  }

  lemma GoodIsApart(kind: Kind, es: seq<Entry>)
    requires Good(es)
    ensures Apart(kind, es)
  {
    hide EncodeSlot, EncodeExtra, TxColumn, RowColumn, BigEndian;
    if kind != Transactions {
      forall i, j | 0 <= i < j < |es| ensures Part(kind, es[i]).Keys !! Part(kind, es[j]).Keys {
        SlotKeysDiffer(es[i].slot, es[j].slot);
        if kind == Addresses && es[i].block.Some? && es[j].block.Some? {
          RowsApart(es[i], es[j]);
        }
      }
    }
  }

  lemma RowsApart(a: Entry, b: Entry)
    requires Proper(a) && Proper(b) && a.block.Some? && b.block.Some? && a.slot != b.slot
    ensures Part(Addresses, a).Keys !! Part(Addresses, b).Keys
  {
    hide RowColumn, RowKey;
    RowKeys(a.slot, a.block.value.rows);
    RowKeys(b.slot, b.block.value.rows);
    forall k | k in Part(Addresses, a) && k in Part(Addresses, b) ensures false {
      var i :| 0 <= i < |a.block.value.rows| && RowKey(a.block.value.rows[i].address, a.slot) == k;
      var j :| 0 <= j < |b.block.value.rows| && RowKey(b.block.value.rows[j].address, b.slot) == k;
      RowKeyOrder(a.block.value.rows[i].address, a.slot, b.block.value.rows[j].address, b.slot);
    }
  }

  /** A slot's own record names exactly the keys it wrote. */
  lemma RecordNamesKeys(e: Entry)
    requires Proper(e) && e.block.Some?
    ensures var x := KeysOf(e.block.value);
            && DecodeExtra(EncodeExtra(x)) == Some(x)
            && TxKeySet(x.transactions) == Part(Transactions, e).Keys
            && RowKeySet(e.slot, x.addresses) == Part(Addresses, e).Keys
  {
    hide EncodeExtra, DecodeExtra, TxColumn, RowColumn, RowKey, EncodeTransaction;
    var b := e.block.value;
    var x := KeysOf(b);
    ExtraRoundTrip(x);
    TxKeys(e.slot, b.txs);
    RowKeys(e.slot, b.rows);
    assert forall i :: 0 <= i < |b.txs| ==> x.transactions[i] == b.txs[i].key;
    assert forall i :: 0 <= i < |b.rows| ==> x.addresses[i] == b.rows[i].address;
  }

  ghost function Without(es: seq<Entry>, i: nat): seq<Entry>
    requires i < |es|
  {
    es[..i] + es[i + 1..]
  }

  lemma WithoutAhead(ring: seq<Entry>, i: nat, ahead: seq<Entry>)
    requires i < |ring|
    ensures Without(ring, i) + ahead == Without(ring + ahead, i)
  {
  }

  lemma GoodWithout(es: seq<Entry>, i: nat)
    requires Good(es) && i < |es|
    ensures Good(Without(es, i))
  {
    hide Proper, Part;
  }

  lemma GoodPrefix(ring: seq<Entry>, ahead: seq<Entry>)
    requires Good(ring + ahead)
    ensures Good(ring)
  {
    hide Proper, Part;
    assert forall i :: 0 <= i < |ring| ==> (ring + ahead)[i] == ring[i];
  }

  /** An eviction deletes exactly the evicted slot's entries, whatever has been indexed ahead. */
  lemma EvictKeeps(ring: seq<Entry>, ahead: seq<Entry>, i: nat)
    requires Good(ring + ahead) && i < |ring|
    ensures Good(Without(ring, i) + ahead) && Good(Without(ring, i)) && Good(ring)
    ensures Removed(Image(ring, ahead), ring[i].slot, ring[i].block.None?) == Some(Image(Without(ring, i), ahead))
  {
    hide Proper, Part, Merged, Good, Apart, DecodeExtra, EncodeExtra, TxKeySet, RowKeySet, KeysOf;
    var all, e := ring + ahead, ring[i];
    assert all[i] == e;
    GoodPrefix(ring, ahead);
    WithoutAhead(ring, i, ahead);
    GoodWithout(all, i);
    GoodWithout(ring, i);
    DeletePart(Slots, ring, i);
    DeletePart(Transactions, all, i);
    DeletePart(Addresses, all, i);
    DeletePart(Extras, all, i);
    OwnParts(all, i);
    if e.block.Some? {
      RecordNamesKeys(e);
    } else {
      NothingToDelete(Merged(Transactions, all), Part(Transactions, e));
      NothingToDelete(Merged(Addresses, all), Part(Addresses, e));
      NothingToDelete(Merged(Extras, all), Part(Extras, e));
    }
  }

  lemma NothingToDelete(column: Column, part: Column)
    requires part == map[]
    ensures column - part.Keys == column
  {
  }

  lemma DeletePart(kind: Kind, es: seq<Entry>, i: nat)
    requires Good(es) && i < |es| && Good(Without(es, i))
    ensures AllProper(es) && Merged(kind, es) - Part(kind, es[i]).Keys == Merged(kind, Without(es, i))
  {
    hide Proper, Part, Merged;
    GoodIsApart(kind, es);
    MergedWithout(kind, es, i);
  }

  lemma OwnParts(es: seq<Entry>, i: nat)
    requires Good(es) && i < |es|
    ensures Proper(es[i]) && Part(Slots, es[i]).Keys == {SlotKey(es[i].slot)}
    ensures es[i].block.None? ==>
              Part(Transactions, es[i]) == map[] && Part(Addresses, es[i]) == map[] && Part(Extras, es[i]) == map[]
    ensures es[i].block.Some? ==>
              && Part(Extras, es[i]).Keys == {SlotKey(es[i].slot)}
              && SlotKey(es[i].slot) in Merged(Extras, es)
              && Merged(Extras, es)[SlotKey(es[i].slot)] == EncodeExtra(KeysOf(es[i].block.value))
  {
    hide EncodeExtra, EncodeSlot, TxColumn, RowColumn, Merged, Apart, SlotKey, KeysOf;
    GoodIsApart(Extras, es);
    if es[i].block.Some? {
      MergedHas(Extras, es, i, SlotKey(es[i].slot));
    }
  }

  /** Indexing a slot ahead of the ring. */
  lemma AddKeeps(ring: seq<Entry>, ahead: seq<Entry>, e: Entry)
    requires Good(ring + ahead + [e]) && e.block.Some?
    ensures AllProper(ring) && AllProper(ring + ahead) && AllProper(ring + (ahead + [e])) && Proper(e)
    ensures Added(Image(ring, ahead), e) == Image(ring, ahead + [e])
  {
    hide Part, Merged, Proper, Apart;
    Parts(ring, ahead, e);
    assert ring + ahead + [e] == ring + (ahead + [e]);
    MergedSnoc(Transactions, ring + ahead, e);
    MergedSnoc(Addresses, ring + ahead, e);
    MergedSnoc(Extras, ring + ahead, e);
  }

  /** The pieces of a good list are good. */
  lemma Parts(ring: seq<Entry>, ahead: seq<Entry>, e: Entry)
    requires Good(ring + ahead + [e])
    ensures Good(ring) && Good(ring + ahead) && Good(ring + [e]) && Good(ring + [e] + ahead) && Good([e] + ring + ahead)
    ensures AllProper(ring + (ahead + [e])) && Proper(e)
  {
    hide Part, Proper;
    var all := ring + ahead + [e];
    var n, m := |ring|, |ahead|;
    assert all[n + m] == e && ring + (ahead + [e]) == all;
    GoodPrefix(ring + ahead, [e]);
    GoodPrefix(ring, ahead);
    var front, back := ring + [e] + ahead, [e] + ring + ahead;
    assert forall i :: 0 <= i < |front| ==> front[i] == all[if i < n then i else if i == n then n + m else i - 1];
    assert forall i :: 0 <= i < |back| ==> back[i] == all[if i == 0 then n + m else i - 1];
    GoodPermuted(all, front, seq(|front|, i requires 0 <= i < |front| => if i < n then i else if i == n then n + m else i - 1));
    GoodPermuted(all, back, seq(|back|, i requires 0 <= i < |back| => if i == 0 then n + m else i - 1));
    GoodPrefix(ring + [e], ahead);
  }

  lemma GoodPermuted(a: seq<Entry>, b: seq<Entry>, at: seq<nat>)
    requires Good(a) && |a| == |b| == |at|
    requires forall i :: 0 <= i < |at| ==> at[i] < |a| && b[i] == a[at[i]]
    requires forall i, j :: 0 <= i < j < |at| ==> at[i] != at[j]
    ensures Good(b)
  {
    hide Part, Proper;
    forall i, j | 0 <= i < j < |b|
      ensures b[i].slot != b[j].slot && Part(Transactions, b[i]).Keys !! Part(Transactions, b[j]).Keys
    {
      var x, y := at[i], at[j];
      assert b[i] == a[x] && b[j] == a[y];
      if x < y {
        assert a[x].slot != a[y].slot;
      } else {
        assert a[y].slot != a[x].slot && Part(Transactions, a[y]).Keys !! Part(Transactions, a[x]).Keys;
      }
    }
  }

  lemma MergedSnoc(kind: Kind, ring: seq<Entry>, e: Entry)
    requires AllProper(ring + [e]) && AllProper(ring) && Proper(e)
    ensures Merged(kind, ring + [e]) == Merged(kind, ring) + Part(kind, e)
  {
    assert (ring + [e])[..|ring|] == ring;
  }

  /** Recording the slot makes it part of the ring; a skipped slot has nothing indexed. */
  lemma RecordKeeps(ring: seq<Entry>, ahead: seq<Entry>, e: Entry)
    requires Good(ring + ahead + [e])
    ensures AllProper(ring) && AllProper(ring + [e]) && AllProper(ring + [e] + ahead) && Proper(e)
    ensures AllProper(ring + (if e.block.Some? then ahead + [e] else ahead))
    ensures Recorded(Image(ring, if e.block.Some? then ahead + [e] else ahead), e) == Image(ring + [e], ahead)
  {
    hide Part, Merged, Proper, Apart;
    Parts(ring, ahead, e);
    var all := ring + ahead + [e];
    assert all == ring + (ahead + [e]);
    MergedSnoc(Slots, ring, e);
    assert forall x :: x in all <==> x in ring + [e] + ahead;
    SameColumns(all, ring + [e] + ahead);
    if e.block.None? {
      NothingIndexed(ring + ahead, e);
    }
  }

  lemma NothingIndexed(es: seq<Entry>, e: Entry)
    requires Good(es + [e]) && e.block.None?
    ensures AllProper(es) && AllProper(es + [e])
    ensures Merged(Transactions, es + [e]) == Merged(Transactions, es)
    ensures Merged(Addresses, es + [e]) == Merged(Addresses, es)
    ensures Merged(Extras, es + [e]) == Merged(Extras, es)
  {
    hide Part, Merged, Proper, Apart;
    GoodPrefix(es, [e]);
    assert (es + [e])[|es|] == e;
    OwnParts(es + [e], |es|);
    MergedSnoc(Transactions, es, e);
    MergedSnoc(Addresses, es, e);
    MergedSnoc(Extras, es, e);
  }

  /** At the back the ring grows at its other end, and the columns do not care. */
  lemma BackIsFront(ring: seq<Entry>, ahead: seq<Entry>, e: Entry)
    requires Good(ring + ahead + [e])
    ensures AllProper([e] + ring) && AllProper([e] + ring + ahead) && AllProper(ring + [e]) && AllProper(ring + [e] + ahead)
    ensures Image([e] + ring, ahead) == Image(ring + [e], ahead)
  {
    hide Part, Merged, Proper, Apart;
    Parts(ring, ahead, e);
    GoodPrefix([e] + ring, ahead);
    assert forall x :: x in [e] + ring + ahead <==> x in ring + [e] + ahead;
    assert forall x :: x in [e] + ring <==> x in ring + [e];
    SameColumns([e] + ring + ahead, ring + [e] + ahead);
    SameColumns([e] + ring, ring + [e]);
  }

  lemma SameColumns(a: seq<Entry>, b: seq<Entry>)
    requires Good(a) && Good(b) && forall x :: x in a <==> x in b
    ensures forall kind :: Merged(kind, a) == Merged(kind, b)
  {
    hide Part, Merged, Proper;
    forall kind ensures Merged(kind, a) == Merged(kind, b) {
      GoodIsApart(kind, a);
      GoodIsApart(kind, b);
      MergedSame(kind, a, b);
    }
  }

  // ----- runs -----

  /** The database and the ring it should describe, oldest slot first. */
  datatype Store = Store(db: Db, ring: seq<Entry>)

  /** The database holds the entries of the ring and of the slots `left` behind, and no others. */
  ghost predicate Holding(s: Store, left: seq<Entry>) {
    Good(s.ring + left) && AllProper(s.ring) && s.db == Image(s.ring, left)
  }

  /**
   What a database that holds the entries of the ring answers: the record of
   every slot, and for every block, also of those left behind, what was indexed.
   */
  lemma HoldingShows(s: Store, left: seq<Entry>, i: nat)
    requires Holding(s, left) && i < |s.ring + left|
    ensures var e := (s.ring + left)[i];
      && (i < |s.ring| ==> RecordShown(s.db, e))
      && (e.block.Some? && DistinctKeys(e.block.value) ==> BlockShown(s.db, e.slot, e.block.value))
  {
    hide Part, Merged, Proper, Apart, BlockShown, DistinctKeys, RecordShown;
    var all := s.ring + left;
    var e := all[i];
    if i < |s.ring| {
      GoodPrefix(s.ring, left);
      RingRecord(s.ring, i, s.db.slots);
      RecordInSlots(s.db, e);
    }
    if e.block.Some? && DistinctKeys(e.block.value) {
      HoldsPart(Transactions, all, i);
      HoldsPart(Addresses, all, i);
      HoldsPart(Extras, all, i);
      ShownByParts(s.db, e);
    }
  }

  lemma HoldsPart(kind: Kind, es: seq<Entry>, i: nat)
    requires Good(es) && i < |es|
    ensures Proper(es[i]) && AllProper(es)
    ensures forall k :: k in Part(kind, es[i]) ==> k in Merged(kind, es) && Merged(kind, es)[k] == Part(kind, es[i])[k]
  {
    hide Part, Merged, Proper, Apart;
    GoodIsApart(kind, es);
    forall k | k in Part(kind, es[i]) ensures k in Merged(kind, es) && Merged(kind, es)[k] == Part(kind, es[i])[k] {
      MergedHas(kind, es, i, k);
    }
  }

  lemma RingRecord(ring: seq<Entry>, i: nat, slots: Column)
    requires Good(ring) && i < |ring| && AllProper(ring) && slots == Merged(Slots, ring)
    ensures Proper(ring[i]) && SlotKey(ring[i].slot) in slots && slots[SlotKey(ring[i].slot)] == EncodeSlot(ring[i].value)
  {
    hide Merged, EncodeSlot, SlotKey, ProperBlock, Apart;
    HoldsPart(Slots, ring, i);
    assert SlotKey(ring[i].slot) in Part(Slots, ring[i]);
  }

  lemma RecordInSlots(db: Db, e: Entry)
    requires Proper(e) && SlotKey(e.slot) in db.slots && db.slots[SlotKey(e.slot)] == EncodeSlot(e.value)
    ensures RecordShown(db, e)
  {
    hide EncodeSlot, DecodeSlot, SlotKey, ProperBlock;
    SlotRoundTrip(e.value);
  }

  /** And nothing else: every transaction and every address row in it was indexed for one of those slots. */
  lemma HoldingShowsOnly(s: Store, left: seq<Entry>, k: seq<Byte>)
    requires Holding(s, left)
    ensures k in s.db.transactions ==> exists e :: e in s.ring + left && HasTransaction(e, k)
    ensures k in s.db.addresses ==> exists e :: e in s.ring + left && e.block.Some? && Writes(e.block.value.rows, e.slot, k)
    ensures k in s.db.slots ==> exists e :: e in s.ring && SlotKey(e.slot) == k
  {
    hide Merged, Apart, TxColumn, RowColumn, SlotKey, EncodeSlot, EncodeExtra, Writes, ProperBlock, SizedSlot;
    var all := s.ring + left;
    if k in s.db.transactions {
      MergedKeys(Transactions, all, k);
      var i :| 0 <= i < |all| && k in Part(Transactions, all[i]);
      TxKeys(all[i].slot, all[i].block.value.txs);
      assert all[i] in all && HasTransaction(all[i], k);
    }
    if k in s.db.addresses {
      MergedKeys(Addresses, all, k);
      var i :| 0 <= i < |all| && k in Part(Addresses, all[i]);
      assert Proper(all[i]);
      SizedRows(all[i].block.value);
      RowKeys(all[i].slot, all[i].block.value.rows);
      assert all[i] in all;
    }
    if k in s.db.slots {
      MergedKeys(Slots, s.ring, k);
      var i :| 0 <= i < |s.ring| && k in Part(Slots, s.ring[i]);
      assert s.ring[i] in s.ring && SlotKey(s.ring[i].slot) == k;
    }
  }

  ghost predicate HasTransaction(e: Entry, k: seq<Byte>) {
    e.block.Some? && exists j :: 0 <= j < |e.block.value.txs| && e.block.value.txs[j].key == k
  }

  lemma SizedRows(b: Block)
    requires ProperBlock(b)
    ensures forall i :: 0 <= i < |b.rows| ==> SizedRow(b.rows[i].statuses)
  {
  }

  ghost predicate Exact(s: Store) {
    Holding(s, [])
  }

  /** `pop_block` at either end; an empty ring is an error. */
  ghost function Evict(db: Db, ring: seq<Entry>, front: bool): Option<Store> {
    if ring == [] then None
    else
      var i := if front then |ring| - 1 else 0;
      match Removed(db, ring[i].slot, ring[i].block.None?)
      case None => None
      case Some(less) => Some(Store(less, Without(ring, i)))
  }

  ghost function EvictMany(db: Db, ring: seq<Entry>, n: nat): Option<Store>
    decreases n
  {
    if n == 0 then Some(Store(db, ring))
    else
      match Evict(db, ring, false)
      case None => None
      case Some(s) => EvictMany(s.db, s.ring, n - 1)
  }

  /**
   `push_block_front`: `early` makes room in a full ring; then the evictions that
   make room in the files race with the indexing, `before` of them winning.
   */
  ghost function PushFront(s: Store, e: Entry, early: bool, before: nat, after: nat): Option<Store>
    requires Proper(e)
  {
    match EvictMany(s.db, s.ring, if early then 1 else 0)
    case None => None
    case Some(s0) => PushInto(s0, e, before, after)
  }

  ghost function PushInto(s: Store, e: Entry, before: nat, after: nat): Option<Store>
    requires Proper(e)
  {
    if e.block.None? then Some(Store(Recorded(s.db, e), s.ring + [e]))
    else
      match EvictMany(s.db, s.ring, before)
      case None => None
      case Some(s1) =>
        match EvictMany(Added(s1.db, e), s1.ring, after)
        case None => None
        case Some(s2) => Some(Store(Recorded(s2.db, e), s2.ring + [e]))
  }

  /** `push_block_back`; without room in the files the slot is not recorded. */
  ghost function PushBack(s: Store, e: Entry, room: bool): Store
    requires Proper(e)
  {
    if e.block.None? then Store(Recorded(s.db, e), [e] + s.ring)
    else if room then Store(Recorded(Added(s.db, e), e), [e] + s.ring)
    else Store(Added(s.db, e), s.ring)
  }

  lemma {:induction false} EvictManyKeeps(ring: seq<Entry>, ahead: seq<Entry>, n: nat)
    requires Good(ring + ahead) && n <= |ring|
    ensures Good(ring[n..] + ahead) && AllProper(ring) && AllProper(ring[n..])
    ensures EvictMany(Image(ring, ahead), ring, n) == Some(Store(Image(ring[n..], ahead), ring[n..]))
    decreases n
  {
    hide Good, Image, Removed, Proper;
    ImageDefined(ring, ahead);
    if n == 0 {
      assert ring[0..] == ring;
    } else {
      EvictKeeps(ring, ahead, 0);
      assert Without(ring, 0) == ring[1..];
      EvictManyKeeps(ring[1..], ahead, n - 1);
      assert ring[1..][n - 1..] == ring[n..];
    }
  }

  lemma ImageDefined(ring: seq<Entry>, ahead: seq<Entry>)
    requires Good(ring + ahead)
    ensures AllProper(ring) && AllProper(ring + ahead) && Good(ring)
  {
    GoodPrefix(ring, ahead);
  }

  lemma {:induction false} EvictTooMany(ring: seq<Entry>, ahead: seq<Entry>, n: nat)
    requires Good(ring + ahead) && n > |ring| && AllProper(ring) && AllProper(ring + ahead)
    ensures EvictMany(Image(ring, ahead), ring, n).None?
    decreases n
  {
    hide Good, Image, Removed, Proper;
    if ring != [] {
      EvictKeeps(ring, ahead, 0);
      assert Without(ring, 0) == ring[1..];
      ImageDefined(ring[1..], ahead);
      EvictTooMany(ring[1..], ahead, n - 1);
    }
  }

  lemma GoodSuffix(ring: seq<Entry>, ahead: seq<Entry>, e: Entry, n: nat)
    requires Good(ring + ahead + [e]) && n <= |ring|
    ensures Good(ring[n..] + ahead + [e])
  {
    hide Proper, Part;
    var all, rest := ring + ahead + [e], ring[n..] + ahead + [e];
    assert forall i :: 0 <= i < |rest| ==> rest[i] == all[n + i];
  }

  /** How many slots a front push evicts. */
  function Evicted(e: Entry, early: bool, before: nat, after: nat): nat {
    (if early then 1 else 0) + if e.block.Some? then before + after else 0
  }

  lemma PushIntoKeeps(ring: seq<Entry>, left: seq<Entry>, e: Entry, before: nat, after: nat)
    requires Good(ring + left + [e])
    ensures Proper(e) && AllProper(ring) && AllProper(ring + left)
    ensures var n := Evicted(e, false, before, after);
            var r := PushInto(Store(Image(ring, left), ring), e, before, after);
            if n > |ring| then r.None? else r.Some? && r.value.ring == ring[n..] + [e] && Holding(r.value, left)
  {
    hide Good, Image, Holding, Removed, Proper, Part, Added, Recorded;
    Pieces(ring, left, e);
    if e.block.None? {
      assert ring[0..] == ring;
      RecordedHolding(ring, left, e);
    } else if before > |ring| {
      EvictTooMany(ring, left, before);
    } else {
      EvictManyKeeps(ring, left, before);
      GoodSuffix(ring, left, e, before);
      PushRest(ring[before..], left, e, after);
      if after <= |ring[before..]| {
        assert ring[before..][after..] == ring[before + after..];
      }
    }
  }

  /**
   A front push leaves exactly the entries of the slots then stored, besides
   what was left behind before. The result depends on how many slots were
   evicted, not on whether the indexing ran before, between or after the
   evictions.
   */
  lemma PushFrontKeeps(s: Store, left: seq<Entry>, e: Entry, early: bool, before: nat, after: nat)
    requires Holding(s, left) && Good(s.ring + left + [e])
    ensures Proper(e)
    ensures var n := Evicted(e, early, before, after);
            var r := PushFront(s, e, early, before, after);
            if n > |s.ring| then r.None?
            else r.Some? && r.value.ring == s.ring[n..] + [e] && Holding(r.value, left)
  {
    hide Good, Image, Removed, Proper, Part, PushInto, EvictMany, Apart, Without;
    var early1 := if early then 1 else 0;
    Pieces(s.ring, left, e);
    if early1 > |s.ring| {
      EvictTooMany(s.ring, left, early1);
      return;
    }
    EvictManyKeeps(s.ring, left, early1);
    GoodSuffix(s.ring, left, e, early1);
    PushIntoKeeps(s.ring[early1..], left, e, before, after);
    var n := Evicted(e, false, before, after);
    if n <= |s.ring[early1..]| {
      assert s.ring[early1..][n..] == s.ring[early1 + n..];
    }
  }

  lemma Pieces(ring: seq<Entry>, left: seq<Entry>, e: Entry)
    requires Good(ring + left + [e])
    ensures Good(ring + left) && AllProper(ring) && AllProper(ring + left) && AllProper(ring + (left + [e])) && Proper(e)
  {
    hide Part, Proper, Apart;
    Parts(ring, left, e);
  }

  lemma RecordedHolding(ring: seq<Entry>, left: seq<Entry>, e: Entry)
    requires Good(ring + left + [e]) && AllProper(ring) && Proper(e)
    requires AllProper(ring + (if e.block.Some? then left + [e] else left))
    ensures Holding(Store(Recorded(Image(ring, if e.block.Some? then left + [e] else left), e), ring + [e]), left)
  {
    hide Good, Image, Proper, Part, Recorded;
    RecordKeeps(ring, left, e);
    Parts(ring, left, e);
  }

  /** Indexing, the evictions that follow it, and the record. */
  lemma PushRest(ring: seq<Entry>, left: seq<Entry>, e: Entry, after: nat)
    requires Good(ring + left + [e]) && e.block.Some?
    ensures AllProper(ring) && AllProper(ring + left) && Proper(e)
    ensures var done := EvictMany(Added(Image(ring, left), e), ring, after);
            if after > |ring| then done.None?
            else done.Some? && done.value.ring == ring[after..]
                 && Holding(Store(Recorded(done.value.db, e), ring[after..] + [e]), left)
  {
    hide Good, Image, Holding, Removed, Proper, Part, Added, Recorded;
    Pieces(ring, left, e);
    AddKeeps(ring, left, e);
    assert ring + left + [e] == ring + (left + [e]);
    if after > |ring| {
      EvictTooMany(ring, left + [e], after);
    } else {
      EvictManyKeeps(ring, left + [e], after);
      GoodSuffix(ring, left, e, after);
      Pieces(ring[after..], left, e);
      RecordedHolding(ring[after..], left, e);
    }
  }

  /**
   A back push keeps the indexes exact exactly when it stores the slot: without
   room in the files the block's index entries have been written and stay,
   although the slot is not in the ring.
   */
  lemma PushBackIff(s: Store, left: seq<Entry>, e: Entry, room: bool)
    requires Holding(s, left) && Good(s.ring + left + [e])
    ensures Proper(e) && (Holding(PushBack(s, e, room), left) <==> room || e.block.None?)
    ensures !room && e.block.Some? ==> Holding(PushBack(s, e, room), left + [e])
  {
    hide Good, Image, Proper, Part, Added, Recorded;
    Pieces(s.ring, left, e);
    assert s.ring + left + [e] == s.ring + (left + [e]);
    if e.block.Some? {
      AddKeeps(s.ring, left, e);
    }
    if room || e.block.None? {
      RecordKeeps(s.ring, left, e);
      BackIsFront(s.ring, left, e);
      Parts(s.ring, left, e);
      GoodPrefix([e] + s.ring, left);
    } else {
      LeftShows(s.ring, left, e);
    }
  }

  /** One more slot left behind shows in the database. */
  lemma LeftShows(ring: seq<Entry>, left: seq<Entry>, e: Entry)
    requires Good(ring + left + [e]) && e.block.Some?
    ensures AllProper(ring) && AllProper(ring + left) && AllProper(ring + (left + [e]))
    ensures Image(ring, left + [e]) != Image(ring, left)
    ensures SlotKey(e.slot) !in Image(ring, left).extras && SlotKey(e.slot) in Image(ring, left + [e]).extras
  {
    hide Merged, Proper, Part, Apart;
    var all, es := ring + left + [e], ring + left;
    Pieces(ring, left, e);
    assert all == ring + (left + [e]) && all[|es|] == e;
    OwnParts(all, |es|);
    GoodIsApart(Extras, all);
    var key := SlotKey(e.slot);
    if key in Merged(Extras, es) {
      MergedKeys(Extras, es, key);
      var i :| 0 <= i < |es| && key in Part(Extras, es[i]);
      assert all[i] == es[i];
      KeyShared(all, i, |es|, key);
      assert false;
    }
  }

  lemma KeyShared(es: seq<Entry>, i: nat, j: nat, key: seq<Byte>)
    requires AllProper(es) && Apart(Extras, es) && i < j < |es|
    ensures key !in Part(Extras, es[i]) || key !in Part(Extras, es[j])
  {
  }

  datatype Step =
    | Front(entry: Entry, early: bool, before: nat, after: nat)
    | Back(entry: Entry, room: bool)
    | Pop(front: bool)

  /** A push brings a slot and transactions that are neither stored nor left behind. */
  ghost predicate Fresh(s: Store, left: seq<Entry>, step: Step) {
    step.Pop? || Good(s.ring + left + [step.entry])
  }

  /** One step of the writer; None where the program fails. */
  ghost function Perform(s: Store, step: Step): Option<Store>
    requires !step.Pop? ==> Proper(step.entry)
  {
    match step
    case Front(e, early, before, after) => PushFront(s, e, early, before, after)
    case Back(e, room) => Some(PushBack(s, e, room))
    case Pop(front) => Evict(s.db, s.ring, front)
  }

  /** The slots left behind after a step: a back push that found no room in the files adds its own. */
  ghost function LeftAfter(left: seq<Entry>, step: Step): seq<Entry> {
    if step.Back? && !step.room && step.entry.block.Some? then left + [step.entry] else left
  }

  ghost function LeftBehind(left: seq<Entry>, steps: seq<Step>): seq<Entry>
    decreases |steps|
  {
    if steps == [] then left else LeftBehind(LeftAfter(left, steps[0]), steps[1..])
  }

  ghost predicate Ran(s: Store, left: seq<Entry>, steps: seq<Step>, r: Store)
    decreases |steps|
  {
    if steps == [] then r == s
    else
      && Fresh(s, left, steps[0]) && (!steps[0].Pop? ==> Proper(steps[0].entry)) && Perform(s, steps[0]).Some?
      && Ran(Perform(s, steps[0]).value, LeftAfter(left, steps[0]), steps[1..], r)
  }

  lemma PerformKeeps(s: Store, left: seq<Entry>, step: Step)
    requires Holding(s, left) && Fresh(s, left, step) && (!step.Pop? ==> Proper(step.entry)) && Perform(s, step).Some?
    ensures Holding(Perform(s, step).value, LeftAfter(left, step))
  {
    hide Good, Image, Removed, PushFront, PushBack, Proper;
    match step {
      case Front(e, early, before, after) => PushFrontKeeps(s, left, e, early, before, after);
      case Back(e, room) => PushBackIff(s, left, e, room);
      case Pop(front) => EvictKeeps(s.ring, left, if front then |s.ring| - 1 else 0);
    }
  }

  /**
   Over every run the indexes hold exactly the entries of the slots stored and
   of the back pushes that found no room; so they describe the ring alone if and
   only if there was no such push.
   */
  lemma {:induction false} Conservation(s: Store, left: seq<Entry>, steps: seq<Step>, r: Store)
    requires Holding(s, left) && Ran(s, left, steps, r)
    ensures Holding(r, LeftBehind(left, steps))
    decreases |steps|
  {
    hide Holding, Good, Perform, Fresh, Proper;
    if steps != [] {
      PerformKeeps(s, left, steps[0]);
      Conservation(Perform(s, steps[0]).value, LeftAfter(left, steps[0]), steps[1..], r);
    }
  }

  lemma {:induction false} LeftHaveBlocks(left: seq<Entry>, steps: seq<Step>)
    requires forall e :: e in left ==> e.block.Some?
    ensures forall e :: e in LeftBehind(left, steps) ==> e.block.Some?
    decreases |steps|
  {
    if steps != [] {
      LeftHaveBlocks(LeftAfter(left, steps[0]), steps[1..]);
    }
  }

  lemma ConservationIff(s: Store, steps: seq<Step>, r: Store)
    requires Exact(s) && Ran(s, [], steps, r)
    ensures Exact(r) <==> LeftBehind([], steps) == []
  {
    hide Good, Image, Ran, Proper, Part;
    Conservation(s, [], steps, r);
    LeftHaveBlocks([], steps);
    var left := LeftBehind([], steps);
    if left != [] {
      NotExact(r, left);
    }
  }

  lemma NotExact(r: Store, left: seq<Entry>)
    requires Holding(r, left) && left != [] && left[|left| - 1].block.Some?
    ensures !Exact(r)
  {
    hide Proper, Part, Merged, Apart;
    var m := |left| - 1;
    var e := left[m];
    assert left == left[..m] + [e] && r.ring + left == r.ring + left[..m] + [e];
    LeftShows(r.ring, left[..m], e);
    if Exact(r) {
      assert r.ring + [] == r.ring;
      OnlyRing(r.ring, left[..m], e);
      assert false;
    }
  }

  lemma OnlyRing(ring: seq<Entry>, left: seq<Entry>, e: Entry)
    requires Good(ring + left + [e]) && e.block.Some?
    ensures AllProper(ring) && SlotKey(e.slot) !in Merged(Extras, ring)
  {
    hide Proper, Part, Merged, Apart;
    Parts(ring, left, e);
    assert ring + [] + [e] == ring + [e] && ring + [] == ring;
    LeftShows(ring, [], e);
  }

  // ----- the database thread -----

  lemma PutIsUnion(column: Column, key: seq<Byte>, value: seq<Byte>)
    ensures column[key := value] == column + map[key := value]
  {
  }

  /** The writer thread's requests, as loops over batches of puts and deletes. */
  class IndexStore {
    var transactions: Column
    var addresses: Column
    var extras: Column
    var slots: Column

    ghost function Content(): Db
      reads this
    {
      Db(transactions, addresses, extras, slots)
    }

    constructor ()
      ensures Content() == Db(map[], map[], map[], map[])
    {
      transactions, addresses, extras, slots := map[], map[], map[], map[];
    }

    method AddIndexes(slot: Slot, block: Block, ghost value: SlotValue)
      requires Proper(Entry(slot, Some(block), value))
      modifies this
      ensures Content() == Added(old(Content()), Entry(slot, Some(block), value))
      ensures DistinctKeys(block) ==> BlockShown(Content(), slot, block)
    {
      hide EncodeExtra, SlotKey, KeysOf, SizedRow, SizedSlot, TxColumn, RowColumn, BlockShown, DistinctKeys, EncodeSlot;
      PutIsUnion(extras, SlotKey(slot), EncodeExtra(KeysOf(block)));
      extras := extras[SlotKey(slot) := EncodeExtra(KeysOf(block))];
      AddTransactions(slot, block.txs);
      AddRows(slot, block.rows);
      if DistinctKeys(block) {
        AddedIsShown(old(Content()), Entry(slot, Some(block), value));
      }
    }

    method AddTransactions(slot: Slot, txs: seq<Tx>)
      modifies this`transactions
      ensures transactions == old(transactions) + TxColumn(slot, txs)
    {
      hide EncodeTransaction;
      for i := 0 to |txs|
        invariant transactions == old(transactions) + TxColumn(slot, txs[..i])
      {
        assert txs[..i + 1][..i] == txs[..i];
        transactions := transactions[txs[i].key := EncodeTransaction(ValueOf(slot, txs[i]))];
      }
      assert txs[..|txs|] == txs;
    }

    method AddRows(slot: Slot, rows: seq<AddressRow>)
      requires forall i :: 0 <= i < |rows| ==> SizedRow(rows[i].statuses)
      modifies this`addresses
      ensures addresses == old(addresses) + RowColumn(slot, rows)
    {
      hide EncodeRow, EncodeStatus, RowKey, SizedStatus, RowColumn;
      NoRows(slot);
      assert rows[..0] == [];
      for i := 0 to |rows|
        invariant addresses == old(addresses) + RowColumn(slot, rows[..i])
      {
        OneRowMore(slot, rows, i);
        var bytes := EncodeStatuses(rows[i].statuses);
        addresses := addresses[RowKey(rows[i].address, slot) := bytes];
      }
      assert rows[..|rows|] == rows;
    }

    /** The record of a stored block, or the mark of a skipped slot. */
    method SlotAdd(slot: Slot, data: Option<SlotValue>, ghost e: Entry)
      requires Proper(e) && e.slot == slot && (data.Some? <==> e.block.Some?) && (data.Some? ==> data.value == e.value)
      modifies this
      ensures Content() == Recorded(old(Content()), e)
      ensures RecordShown(Content(), e)
    {
      hide EncodeSlot, DecodeSlot, SlotKey, ProperBlock, SizedSlot;
      var value := if data.Some? then data.value else DeadSlot;
      SlotRoundTrip(e.value);
      slots := slots[SlotKey(slot) := EncodeSlot(value)];
    }

    /** False when the slot's record is missing or malformed; nothing is deleted then. */
    method SlotRemove(slot: Slot, dead: bool) returns (ok: bool)
      modifies this
      ensures ok == Removed(old(Content()), slot, dead).Some?
      ensures Content() == if ok then Removed(old(Content()), slot, dead).value else old(Content())
    {
      hide DecodeExtra, RowKey, SlotKey;
      var key := SlotKey(slot);
      if dead {
        slots := slots - {key};
        return true;
      }
      if key !in extras {
        return false;
      }
      var record := DecodeExtra(extras[key]);
      if record.None? {
        return false;
      }
      slots, extras := slots - {key}, extras - {key};
      DeleteTransactions(record.value.transactions);
      DeleteRows(slot, record.value.addresses);
      return true;
    }

    method DeleteTransactions(hashes: seq<Hash>)
      modifies this`transactions
      ensures transactions == old(transactions) - TxKeySet(hashes)
    {
      for i := 0 to |hashes|
        invariant transactions == old(transactions) - TxKeySet(hashes[..i])
      {
        transactions := transactions - {hashes[i]};
        assert hashes[..i + 1] == hashes[..i] + [hashes[i]];
        assert TxKeySet(hashes[..i + 1]) == TxKeySet(hashes[..i]) + {hashes[i]};
      }
      assert hashes[..|hashes|] == hashes;
    }

    method DeleteRows(slot: Slot, hashes: seq<Hash>)
      modifies this`addresses
      ensures addresses == old(addresses) - RowKeySet(slot, hashes)
    {
      hide RowKey;
      for i := 0 to |hashes|
        invariant addresses == old(addresses) - RowKeySet(slot, hashes[..i])
      {
        addresses := addresses - {RowKey(hashes[i], slot)};
      }
      assert hashes[..|hashes|] == hashes;
    }
  }

  /** `SfaIndexValue::encode`: record after record into one buffer. */
  method EncodeStatuses(statuses: seq<Status>) returns (bytes: seq<Byte>)
    requires SizedRow(statuses)
    ensures bytes == EncodeRow(statuses)
  {
    hide EncodeStatus, SizedStatus;
    bytes := [];
    for i := 0 to |statuses|
      invariant bytes + EncodeRow(statuses[i..]) == EncodeRow(statuses)
    {
      assert statuses[i..][0] == statuses[i] && statuses[i..][1..] == statuses[i + 1..];
      assert statuses[i] in statuses;
      bytes := bytes + EncodeStatus(statuses[i]);
    }
  }
}
