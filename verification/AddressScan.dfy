/**
 The address index scan behind getTransactionsForAddress
 (src/storage/rocksdb.rs, `spawn_transactions_for_address`).

 RocksDB is a sequence of byte pairs sorted by key. The scan decodes keys and
 rows, walks them in either direction from a start slot and stops at the first
 row that is foreign or out of range.
 */
module AddressScan {
  import opened Common
  import opened Codec

  datatype Row = Row(address: Hash, slot: Slot, entries: seq<Status>)

  datatype Item = Item(slot: Slot, status: Status)

  /** A place in an address's history: slot, then transaction index. */
  datatype Position = Position(slot: Slot, index: nat)

  function At(item: Item): Position {
    Position(item.slot, item.status.index)
  }

  /** `q` is reached strictly after `p` when scanning in a direction. */
  predicate Later(desc: bool, p: Position, q: Position) {
    if desc then q.slot < p.slot || (q.slot == p.slot && q.index < p.index)
    else p.slot < q.slot || (p.slot == q.slot && p.index < q.index)
  }

  ghost predicate Sorted(desc: bool, items: seq<Item>) {
    forall i, j :: 0 <= i < j < |items| ==> Later(desc, At(items[i]), At(items[j]))
  }

  // ----- the table -----

  ghost predicate ProperRow(row: Row) {
    && row.slot < TWO_64 && SizedRow(row.entries)
    && forall i, j :: 0 <= i < j < |row.entries| ==> row.entries[j].index < row.entries[i].index
  }

  ghost predicate Holds(pair: (seq<Byte>, seq<Byte>), row: Row) {
    ProperRow(row) && pair == (RowKey(row.address, row.slot), EncodeRow(row.entries))
  }

  /** The column family holds exactly these rows, in key order. */
  ghost predicate Stores(db: seq<(seq<Byte>, seq<Byte>)>, rows: seq<Row>) {
    && |db| == |rows|
    && (forall i :: 0 <= i < |db| ==> Holds(db[i], rows[i]))
    && (forall i, j :: 0 <= i < j < |db| ==> KeyLess(db[i].0, db[j].0))
  }

  ghost predicate RowLess(a: Row, b: Row) {
    KeyLess(a.address, b.address) || (a.address == b.address && a.slot < b.slot)
  }

  /** Rows in the order a scan meets them. */
  ghost predicate Ordered(desc: bool, rows: seq<Row>) {
    && (forall i :: 0 <= i < |rows| ==> Sorted(desc, Items(rows[i])))
    && (forall i, j :: 0 <= i < j < |rows| ==> if desc then RowLess(rows[j], rows[i]) else RowLess(rows[i], rows[j]))
  }

  function Items(row: Row): (r: seq<Item>) {
    seq(|row.entries|, i requires 0 <= i < |row.entries| => Item(row.slot, row.entries[i]))
  }

  function Reversed(s: seq<Status>): (r: seq<Status>) {
    seq(|s|, i requires 0 <= i < |s| => s[|s| - 1 - i])
  }

  /** Row number `k` of a scan over the whole table. */
  ghost function Met(rows: seq<Row>, desc: bool, k: nat): Row
    requires k < |rows|
  {
    if desc then rows[|rows| - 1 - k] else rows[k].(entries := Reversed(rows[k].entries))
  }

  ghost function InOrder(rows: seq<Row>, desc: bool): seq<Row> {
    seq(|rows|, k requires 0 <= k < |rows| => Met(rows, desc, k))
  }

  lemma InOrderIsOrdered(db: seq<(seq<Byte>, seq<Byte>)>, rows: seq<Row>, desc: bool)
    requires Stores(db, rows)
    ensures Ordered(desc, InOrder(rows, desc))
  {
    hide KeyLess, RowKey, EncodeRow, SizedRow;
    var met := InOrder(rows, desc);
    forall i, j | 0 <= i < j < |rows| ensures RowLess(rows[i], rows[j]) {
      assert Holds(db[i], rows[i]) && Holds(db[j], rows[j]);
      RowKeyOrder(rows[i].address, rows[i].slot, rows[j].address, rows[j].slot);
    }
    forall k | 0 <= k < |met| ensures Sorted(desc, Items(met[k])) {
      assert Holds(db[if desc then |rows| - 1 - k else k], rows[if desc then |rows| - 1 - k else k]);
    }
  }

  lemma {:induction false} KeyLessTransitive(a: seq<Byte>, b: seq<Byte>, c: seq<Byte>)
    requires KeyLess(a, b) && KeyLess(b, c)
    ensures KeyLess(a, c)
    decreases |a|
  {
    if a != [] && a[0] == b[0] && b[0] == c[0] {
      KeyLessTransitive(a[1..], b[1..], c[1..]);
    }
  }

  lemma {:induction false} KeyLessStrict(a: seq<Byte>)
    ensures !KeyLess(a, a)
    decreases |a|
  {
    if a != [] {
      KeyLessStrict(a[1..]);
    }
  }

  lemma {:induction false} KeyLessTotal(a: seq<Byte>, b: seq<Byte>)
    ensures KeyLess(a, b) || a == b || KeyLess(b, a)
    decreases |a|
  {
    if a != [] && b != [] && a[0] == b[0] {
      KeyLessTotal(a[1..], b[1..]);
      assert a == [a[0]] + a[1..] && b == [b[0]] + b[1..];
    }
  }

  // ----- what a scan selects -----

  /** `slot` is at or after `from` in the direction of the scan. */
  predicate Onward(desc: bool, from: Slot, slot: Slot) {
    if desc then slot <= from else from <= slot
  }

  predicate Within(desc: bool, stop: Option<Slot>, slot: Slot) {
    stop.Some? ==> if desc then stop.value <= slot else slot <= stop.value
  }

  predicate Chosen(row: Row, address: Hash, desc: bool, from: Slot, stop: Option<Slot>) {
    row.address == address && Onward(desc, from, row.slot) && Within(desc, stop, row.slot)
  }

  /** Every entry of an address from one slot to another, in scan order. */
  ghost function Select(rows: seq<Row>, address: Hash, desc: bool, from: Slot, stop: Option<Slot>): seq<Item> {
    if rows == [] then []
    else (if Chosen(rows[0], address, desc, from, stop) then Items(rows[0]) else [])
         + Select(rows[1..], address, desc, from, stop)
  }

  predicate Skips(desc: bool, cursor: nat, index: nat) {
    if desc then index >= cursor else index <= cursor
  }

  /** What the cursor lets through: entries on its far side are dropped until the cursor itself is met. */
  ghost function Skip(desc: bool, cursor: Option<nat>, items: seq<Item>): seq<Item>
    decreases |items|
  {
    if cursor.None? || items == [] then items
    else if Skips(desc, cursor.value, items[0].status.index) then
      Skip(desc, if items[0].status.index == cursor.value then None else cursor, items[1..])
    else [items[0]] + Skip(desc, cursor, items[1..])
  }

  ghost function CursorAfter(desc: bool, cursor: Option<nat>, items: seq<Item>): Option<nat> {
    if cursor.None? || items == [] then cursor
    else if items[0].status.index == cursor.value then None
    else CursorAfter(desc, cursor, items[1..])
  }

  lemma {:induction false} SkipAppend(desc: bool, cursor: Option<nat>, a: seq<Item>, b: seq<Item>)
    ensures Skip(desc, cursor, a + b) == Skip(desc, cursor, a) + Skip(desc, CursorAfter(desc, cursor, a), b)
    decreases |a|
  {
    if a == [] {
      assert a + b == b;
    } else if cursor.Some? {
      assert (a + b)[1..] == a[1..] + b;
      SkipAppend(desc, if a[0].status.index == cursor.value then None else cursor, a[1..], b);
      SkipAppend(desc, cursor, a[1..], b);
    }
  }

  lemma {:induction false} SelectNothing(rows: seq<Row>, address: Hash, desc: bool, from: Slot, stop: Option<Slot>)
    requires forall i :: 0 <= i < |rows| ==> !Chosen(rows[i], address, desc, from, stop)
    ensures Select(rows, address, desc, from, stop) == []
  {
    if rows != [] {
      SelectNothing(rows[1..], address, desc, from, stop);
    }
  }

  lemma {:induction false} SelectDrop(rows: seq<Row>, k: nat, address: Hash, desc: bool, from: Slot, stop: Option<Slot>)
    requires k <= |rows| && forall i :: 0 <= i < k ==> !Chosen(rows[i], address, desc, from, stop)
    ensures Select(rows, address, desc, from, stop) == Select(rows[k..], address, desc, from, stop)
  {
    if k > 0 {
      SelectDrop(rows[1..], k - 1, address, desc, from, stop);
      assert rows[1..][k - 1..] == rows[k..];
    } else {
      assert rows[0..] == rows;
    }
  }

  /** The row is not before the start key. */
  ghost predicate Reached(row: Row, address: Hash, desc: bool, from: Slot) {
    (row.address == address && Onward(desc, from, row.slot))
    || if desc then KeyLess(row.address, address) else KeyLess(address, row.address)
  }

  /** Once the scan meets a foreign or out-of-range row, nothing is left to select. */
  lemma NothingBeyond(rows: seq<Row>, address: Hash, desc: bool, from: Slot, stop: Option<Slot>)
    requires rows != [] && Ordered(desc, rows) && Reached(rows[0], address, desc, from)
    requires !Chosen(rows[0], address, desc, from, stop)
    ensures Select(rows, address, desc, from, stop) == []
  {
    hide KeyLess;
    forall i | 0 <= i < |rows| ensures !Chosen(rows[i], address, desc, from, stop) {
      if i > 0 && rows[i].address == address {
        assert if desc then RowLess(rows[i], rows[0]) else RowLess(rows[0], rows[i]);
        KeyLessStrict(address);
        if KeyLess(address, rows[0].address) && KeyLess(rows[0].address, address) {
          KeyLessTransitive(address, rows[0].address, address);
        }
      }
    }
    SelectNothing(rows, address, desc, from, stop);
  }

  // ----- the scan -----

  /** One entry of a row. */
  lemma SkipStep(desc: bool, cursor: Option<nat>, items: seq<Item>)
    requires items != []
    ensures var index, more := items[0].status.index, items[1..];
      if cursor.Some? && Skips(desc, cursor.value, index) then
        var after := if index == cursor.value then None else cursor;
        Skip(desc, cursor, items) == Skip(desc, after, more) && CursorAfter(desc, cursor, items) == CursorAfter(desc, after, more)
      else
        Skip(desc, cursor, items) == [items[0]] + Skip(desc, cursor, more)
        && CursorAfter(desc, cursor, items) == CursorAfter(desc, cursor, more)
  {
  }

  lemma NothingSkipped(desc: bool, cursor: Option<nat>)
    ensures Skip(desc, cursor, []) == [] && CursorAfter(desc, cursor, []) == cursor
  {
  }

  lemma Behead(items: seq<Item>, first: Item, skipped: seq<Item>)
    ensures items + ([first] + skipped) == (items + [first]) + skipped
    ensures items + [first] <= items + ([first] + skipped)
  {
    assert items + ([first] + skipped) == (items + [first]) + skipped;
  }

  /** The entries of one row; `full` when the result has reached its capacity. */
  method TakeRow(row: Row, desc: bool, cursor0: Option<nat>, items0: seq<Item>, capacity: nat)
    returns (items: seq<Item>, cursor: Option<nat>, full: bool)
    requires |items0| < capacity
    ensures !full ==> items == items0 + Skip(desc, cursor0, Items(row)) && |items| < capacity
    ensures !full ==> cursor == CursorAfter(desc, cursor0, Items(row))
    ensures full ==> |items| == capacity && items <= items0 + Skip(desc, cursor0, Items(row))
  {
    hide Skip, CursorAfter, Skips;
    items, cursor, full := items0, cursor0, false;
    ghost var all := Items(row);
    assert all[0..] == all;
    for i := 0 to |row.entries|
      invariant |items| < capacity
      invariant items + Skip(desc, cursor, all[i..]) == items0 + Skip(desc, cursor0, all)
      invariant CursorAfter(desc, cursor, all[i..]) == CursorAfter(desc, cursor0, all)
    {
      var status := row.entries[i];
      assert all[i..][0] == Item(row.slot, status) && all[i..][1..] == all[i + 1..];
      SkipStep(desc, cursor, all[i..]);
      Behead(items, Item(row.slot, status), Skip(desc, cursor, all[i + 1..]));
      if cursor.Some? && Skips(desc, cursor.value, status.index) {
        if status.index == cursor.value {
          cursor := None;
        }
      } else {
        items := items + [Item(row.slot, status)];
        if |items| == capacity {
          full := true;
          return;
        }
      }
    }
    NothingSkipped(desc, cursor);
  }

  /** The iterator's place in the table for row `k` of a scan. */
  function Place(n: nat, desc: bool, k: nat): nat
    requires k < n
  {
    if desc then n - 1 - k else k
  }

  /** `IteratorMode::From`: the first key at or after the start key, in the direction of the scan. */
  method Seek(db: seq<(seq<Byte>, seq<Byte>)>, ghost rows: seq<Row>, address: Hash, desc: bool, from: Slot)
    returns (k: nat)
    requires Stores(db, rows) && from < TWO_64
    ensures k <= |rows|
    ensures forall i, stop :: 0 <= i < k ==> !Chosen(InOrder(rows, desc)[i], address, desc, from, stop)
    ensures k < |rows| ==> Reached(InOrder(rows, desc)[k], address, desc, from)
  {
    hide KeyLess, RowKey, EncodeRow, ProperRow;
    k := 0;
    while k < |db|
      invariant k <= |rows|
      invariant forall i, stop :: 0 <= i < k ==> !Chosen(InOrder(rows, desc)[i], address, desc, from, stop)
    {
      var key, start := db[Place(|db|, desc, k)].0, RowKey(address, from);
      StartOrder(db[Place(|db|, desc, k)], rows[Place(|db|, desc, k)], address, desc, from);
      if !(if desc then KeyLess(start, key) else KeyLess(key, start)) {
        break;
      }
      k := k + 1;
    }
  }

  lemma StartOrder(pair: (seq<Byte>, seq<Byte>), row: Row, address: Hash, desc: bool, from: Slot)
    requires Holds(pair, row) && from < TWO_64
    ensures var start := RowKey(address, from);
            Reached(row, address, desc, from) <==> !(if desc then KeyLess(start, pair.0) else KeyLess(pair.0, start))
    ensures row.address == address && Onward(desc, from, row.slot) ==> Reached(row, address, desc, from)
  {
    hide KeyLess, RowKey, EncodeRow;
    RowKeyOrder(address, from, row.address, row.slot);
    RowKeyOrder(row.address, row.slot, address, from);
    KeyLessTotal(address, row.address);
    KeyLessStrict(address);
    if KeyLess(address, row.address) && KeyLess(row.address, address) {
      KeyLessTransitive(address, row.address, address);
    }
  }

  /** Reading one row back from its bytes. */
  method ReadRow(pair: (seq<Byte>, seq<Byte>), ghost row: Row, desc: bool) returns (r: Option<Row>)
    requires Holds(pair, row)
    ensures r == Some(if desc then row else row.(entries := Reversed(row.entries)))
  {
    hide EncodeRow, BigEndian, FromBigEndian;
    Widths();
    BigEndianRoundTrip(row.slot, 8);
    RowRoundTrip(row.entries);
    assert pair.0[..8] == row.address && pair.0[8..] == BigEndian(row.slot, 8);
    var entries := DecodeRow(pair.1);
    if entries.None? {
      return None;
    }
    r := Some(Row(pair.0[..8], FromBigEndian(pair.0[8..]), if desc then entries.value else Reversed(entries.value)));
  }

  /** Past the start, a row of the address lies onward. */
  lemma ReachedIsOnward(row: Row, address: Hash, desc: bool, from: Slot)
    requires Reached(row, address, desc, from) && row.address == address
    ensures Onward(desc, from, row.slot)
  {
    KeyLessStrict(address);
  }

  lemma ReachedNext(rows: seq<Row>, k: nat, address: Hash, desc: bool, from: Slot)
    requires Ordered(desc, rows) && k + 1 < |rows| && Reached(rows[k], address, desc, from)
    ensures Reached(rows[k + 1], address, desc, from)
  {
    hide KeyLess;
    var a, b := rows[k], rows[k + 1];
    assert if desc then RowLess(b, a) else RowLess(a, b);
    if desc && KeyLess(b.address, a.address) && KeyLess(a.address, address) {
      KeyLessTransitive(b.address, a.address, address);
    } else if !desc && KeyLess(a.address, b.address) && KeyLess(address, a.address) {
      KeyLessTransitive(address, a.address, b.address);
    }
  }

  /** What is still to come when row `k` has been read. */
  lemma RowTaken(rows: seq<Row>, k: nat, address: Hash, desc: bool, from: Slot, stop: Option<Slot>, cursor: Option<nat>)
    requires k < |rows| && Chosen(rows[k], address, desc, from, stop)
    ensures var own := Items(rows[k]);
            Skip(desc, cursor, Select(rows[k..], address, desc, from, stop))
            == Skip(desc, cursor, own)
               + Skip(desc, CursorAfter(desc, cursor, own), Select(rows[k + 1..], address, desc, from, stop))
  {
    assert rows[k..][1..] == rows[k + 1..];
    SkipAppend(desc, cursor, Items(rows[k]), Select(rows[k + 1..], address, desc, from, stop));
  }

  lemma OrderedFrom(desc: bool, rows: seq<Row>, k: nat)
    requires Ordered(desc, rows) && k <= |rows|
    ensures Ordered(desc, rows[k..])
  {
    hide RowLess, Sorted;
  }

  /**
   The whole scan. It delivers, after what it was given, exactly the selected
   entries that the cursor lets through, up to the capacity, and claims to be
   finished exactly when the capacity was not reached.
   */
  method Scan(db: seq<(seq<Byte>, seq<Byte>)>, ghost rows: seq<Row>, address: Hash, desc: bool, from: Slot,
              cursor0: Option<nat>, stop: Option<Slot>, items0: seq<Item>, capacity: nat)
    returns (items: seq<Item>, finished: bool)
    requires Stores(db, rows) && from < TWO_64 && |items0| < capacity
    ensures var all := items0 + Skip(desc, cursor0, Select(InOrder(rows, desc), address, desc, from, stop));
            items == (if |all| < capacity then all else all[..capacity]) && finished == (|all| < capacity)
  {
    hide Holds, KeyLess, Ordered, Reached, Skip, CursorAfter, Select, Items;
    ghost var met := InOrder(rows, desc);
    ghost var all := items0 + Skip(desc, cursor0, Select(met, address, desc, from, stop));
    InOrderIsOrdered(db, rows, desc);
    var k := Seek(db, rows, address, desc, from);
    SelectDrop(met, k, address, desc, from, stop);
    var cursor := cursor0;
    items := items0;
    finished := true;
    while k < |db|
      invariant k <= |met| && |items| < capacity
      invariant all == items + Skip(desc, cursor, Select(met[k..], address, desc, from, stop))
      invariant k < |met| ==> Reached(met[k], address, desc, from)
    {
      var row := ReadRow(db[Place(|db|, desc, k)], rows[Place(|db|, desc, k)], desc);
      assert row.value == met[k];
      OrderedFrom(desc, met, k);
      if row.value.address != address || !Within(desc, stop, row.value.slot) {
        NothingBeyond(met[k..], address, desc, from, stop);
        NoneLeft(desc, cursor);
        return;
      }
      ReachedIsOnward(met[k], address, desc, from);
      RowTaken(met, k, address, desc, from, stop, cursor);
      var full;
      items, cursor, full := TakeRow(row.value, desc, cursor, items, capacity);
      if full {
        return items, false;
      }
      k := k + 1;
      if k < |db| {
        ReachedNext(met, k - 1, address, desc, from);
      }
    }
    SelectNothing(met[k..], address, desc, from, stop);
    NoneLeft(desc, cursor);
  }

  lemma NoneLeft(desc: bool, cursor: Option<nat>)
    ensures Skip(desc, cursor, []) == []
  {
  }
}
