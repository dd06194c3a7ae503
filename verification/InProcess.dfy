/**
 The first descending page of getTransactionsForAddress while the newest
 confirmed block is in process: confirmed, but not stored yet
 (src/storage/read.rs, `ReadRequest::TransactionsForAddress`).

 A request without a cursor takes the entries of that block from memory and
 scans the table below it. A request with a cursor only scans the table.
 */
module InProcess {
  import opened Common
  import opened Codec
  import opened AddressScan
  import opened Paging

  /** The table once the in-process block has been stored: its row stands at place `k`. */
  ghost function Flushed(rows: seq<Row>, k: nat, own: Row): seq<Row>
    requires k <= |rows|
  {
    rows[..k] + [own] + rows[k..]
  }

  /** Every stored block of the address is older. */
  ghost predicate IsNewest(rows: seq<Row>, own: Row) {
    forall i :: 0 <= i < |rows| && rows[i].address == own.address ==> rows[i].slot < own.slot
  }

  function Before(slot: Slot): Slot {
    if slot == 0 then 0 else slot - 1
  }

  /** What a request without a cursor ranges over. */
  ghost function FirstListing(q: Query, rows: seq<Row>, own: Option<Row>): seq<Item> {
    if own.Some? && own.value.slot <= Start(q, None) then Items(own.value) + From(q, rows, Before(own.value.slot))
    else Listing(q, rows)
  }

  /**
   One request without a cursor. `own` is the address's row in the in-process
   block, if there is one and the request is for the confirmed commitment.
   */
  method FirstRequest(db: seq<(seq<Byte>, seq<Byte>)>, ghost rows: seq<Row>, q: Query, own: Option<Row>, capacity: nat)
    returns (items: seq<Item>, finished: bool)
    requires Stores(db, rows) && q.desc && Start(q, None) < TWO_64 && capacity > 0
    ensures var all := FirstListing(q, rows, own);
            items == (if |all| < capacity then all else all[..capacity]) && finished == (|all| < capacity)
  {
    hide Stores, Select;
    var slot := Start(q, None);
    items := [];
    if own.Some? && own.value.slot <= slot {
      var row := own.value;
      for i := 0 to |row.entries|
        invariant i < capacity && items == Items(row)[..i]
      {
        items := items + [Item(row.slot, row.entries[i])];
        if |items| == capacity {
          return items, false;
        }
      }
      slot := Before(row.slot);
      assert Items(row)[..|row.entries|] == Items(row);
    }
    SkipNothing(q.desc, From(q, rows, slot));
    assert [] + From(q, rows, slot) == From(q, rows, slot);
    items, finished := Scan(db, rows, q.address, q.desc, slot, None, Stop(q), items, capacity);
  }

  lemma {:induction false} SelectAppend(a: seq<Row>, b: seq<Row>, address: Hash, desc: bool, from: Slot, stop: Option<Slot>)
    ensures Select(a + b, address, desc, from, stop) == Select(a, address, desc, from, stop) + Select(b, address, desc, from, stop)
  {
    if a == [] {
      assert a + b == b;
    } else {
      assert (a + b)[1..] == a[1..] + b;
      SelectAppend(a[1..], b, address, desc, from, stop);
    }
  }

  /** Starting higher selects nothing more when the address has no row in between. */
  lemma {:induction false} SelectFromAbove(rows: seq<Row>, address: Hash, low: Slot, high: Slot, stop: Option<Slot>)
    requires low <= high && forall i :: 0 <= i < |rows| && rows[i].address == address ==> rows[i].slot <= low
    ensures Select(rows, address, true, high, stop) == Select(rows, address, true, low, stop)
  {
    if rows != [] {
      SelectFromAbove(rows[1..], address, low, high, stop);
    }
  }

  /** In scan order the new row comes before every other row of its address. */
  lemma FlushedOrder(rows: seq<Row>, k: nat, own: Row)
    requires k <= |rows| && IsNewest(rows, own) && Ordered(true, InOrder(Flushed(rows, k, own), true))
    ensures InOrder(Flushed(rows, k, own), true) == InOrder(rows[k..], true) + [own] + InOrder(rows[..k], true)
    ensures InOrder(rows, true) == InOrder(rows[k..], true) + InOrder(rows[..k], true)
    ensures forall i :: 0 <= i < |rows| - k ==> InOrder(rows[k..], true)[i].address != own.address
  {
    hide KeyLess;
    var met := InOrder(Flushed(rows, k, own), true);
    assert met == InOrder(rows[k..], true) + [own] + InOrder(rows[..k], true);
    forall i | 0 <= i < |rows| - k ensures InOrder(rows[k..], true)[i].address != own.address {
      assert met[i] == InOrder(rows[k..], true)[i] == rows[|rows| - 1 - i] && met[|rows| - k] == own;
      assert RowLess(met[|rows| - k], met[i]);
      KeyLessStrict(own.address);
    }
  }

  /** The flushed table selects the new row, if it is in range, and then what lies below it. */
  lemma SelectFlushed(rows: seq<Row>, k: nat, own: Row, from: Slot, stop: Option<Slot>)
    requires k <= |rows| && IsNewest(rows, own) && Ordered(true, InOrder(Flushed(rows, k, own), true))
    ensures var below := Select(InOrder(rows, true), own.address, true, Before(own.slot), stop);
            && Select(InOrder(rows, true), own.address, true, own.slot, stop) == below
            && (own.slot <= from ==> Select(InOrder(Flushed(rows, k, own), true), own.address, true, from, stop)
                                     == (if Within(true, stop, own.slot) then Items(own) else []) + below)
            && (from < own.slot ==> Select(InOrder(Flushed(rows, k, own), true), own.address, true, from, stop)
                                    == Select(InOrder(rows, true), own.address, true, from, stop))
  {
    hide Ordered, Select, Items;
    var address, newer, older := own.address, InOrder(rows[k..], true), InOrder(rows[..k], true);
    FlushedOrder(rows, k, own);
    AtMost(rows, own);
    SelectFromAbove(InOrder(rows, true), address, Before(own.slot), own.slot, stop);
    if own.slot <= from {
      SelectFromAbove(InOrder(rows, true), address, Before(own.slot), from, stop);
    }
    SelectNothing(newer, address, true, from, stop);
    SelectAppend(newer, older, address, true, from, stop);
    SelectAppend(newer + [own], older, address, true, from, stop);
    SelectAppend(newer, [own], address, true, from, stop);
    SelectOne(own, from, stop);
  }

  lemma SelectOne(own: Row, from: Slot, stop: Option<Slot>)
    ensures Select([own], own.address, true, from, stop)
            == if own.slot <= from && Within(true, stop, own.slot) then Items(own) else []
  {
    hide Items;
    assert [own][1..] == [];
    assert Select([], own.address, true, from, stop) == [];
  }

  lemma AtMost(rows: seq<Row>, own: Row)
    requires IsNewest(rows, own)
    ensures forall i :: 0 <= i < |rows| && InOrder(rows, true)[i].address == own.address ==>
              InOrder(rows, true)[i].slot <= Before(own.slot)
  {
  }

  /**
   The first request ranges over the same entries as after the block has been
   stored, exactly unless the block lies below the requested range: its
   entries are delivered without regard to the lower bound.
   */
  lemma FirstListingIff(after: seq<(seq<Byte>, seq<Byte>)>, rows: seq<Row>, k: nat, own: Row, q: Query)
    requires k <= |rows| && Stores(after, Flushed(rows, k, own)) && IsNewest(rows, own)
    requires q.desc && own.address == q.address
    ensures FirstListing(q, rows, Some(own)) == Listing(q, Flushed(rows, k, own))
            <==> own.slot > Start(q, None) || own.entries == [] || Within(true, q.lower, own.slot)
  {
    hide Stores, Ordered, Select;
    InOrderIsOrdered(after, Flushed(rows, k, own), true);
    SelectFlushed(rows, k, own, Start(q, None), Stop(q));
    var below := From(q, rows, Before(own.slot));
    if own.slot <= Start(q, None) && own.entries != [] && !Within(true, q.lower, own.slot) {
      assert [] + below == below;
      assert |Items(own) + below| > |below|;
    }
  }

  /**
   Resuming behind an entry of the in-process block, by a token or by the next
   batch of the same page. Before the block is stored this delivers what it
   will deliver afterwards exactly when the entry is the last of its block and
   no older entry is on the skipped side of its index.
   */
  lemma ResumeInProcessIff(after: seq<(seq<Byte>, seq<Byte>)>, rows: seq<Row>, k: nat, own: Row, q: Query, j: nat)
    requires k <= |rows| && Stores(after, Flushed(rows, k, own)) && IsNewest(rows, own) && j < |own.entries|
    requires q.desc && own.address == q.address && own.slot <= Start(q, None) && Within(true, q.lower, own.slot)
    ensures var p := Position(own.slot, own.entries[j].index);
            Skip(true, Some(p.index), From(q, rows, p.slot)) == Rest(true, Listing(q, Flushed(rows, k, own)), Some(p))
            <==> j + 1 == |own.entries| && !Stray(true, From(q, rows, p.slot), p)
  {
    hide Stores, Ordered, Select, Rest, Skip, Stray;
    var p, all, rest := Position(own.slot, own.entries[j].index), Listing(q, Flushed(rows, k, own)), From(q, rows, own.slot);
    InOrderIsOrdered(after, Flushed(rows, k, own), true);
    SelectFlushed(rows, k, own, Start(q, None), Stop(q));
    assert all == Items(own) + rest;
    SelectSorted(InOrder(Flushed(rows, k, own), true), q.address, true, Start(q, None), Stop(q));
    RestBehind(true, all, j);
    assert all[j + 1..] == Items(own)[j + 1..] + rest;
    SkipShrinks(true, Some(p.index), rest);
    if j + 1 == |own.entries| {
      assert [] + rest == rest;
      LastInProcess(all, |own.entries|, rest, p);
    }
  }

  lemma LastInProcess(all: seq<Item>, n: nat, rest: seq<Item>, p: Position)
    requires Sorted(true, all) && 0 < n <= |all| && rest == all[n..] && At(all[n - 1]) == p
    requires forall i :: 0 <= i < |rest| ==> rest[i].slot <= p.slot
    ensures Skip(true, Some(p.index), rest) == rest <==> !Stray(true, rest, p)
  {
    hide Skip, Stray;
    forall i | 0 <= i < |rest| ensures Later(true, p, At(rest[i])) {
      assert rest[i] == all[n + i];
    }
    RestAll(true, rest, p);
    SkipIsRestIff(true, rest, p);
  }

  /**
   A first page of one entry, and the page its token asks for. The in-process
   block holds a second entry of the address and the table an older one; the
   second page is empty and the last.
   */
  method SecondPageIsEmpty(db: seq<(seq<Byte>, seq<Byte>)>, address: Hash, newest: Status, next: Status, older: Status)
    returns (first: seq<Item>, second: seq<Item>, finished: bool)
    requires Stores(db, [Row(address, 9, [older])])
    requires newest.index == 6 && next.index == 2 && older.index == 7
    ensures first == [Item(10, newest)] && second == [] && finished
  {
    hide Stores, Chosen;
    var own, stored := Row(address, 10, [newest, next]), Row(address, 9, [older]);
    var q := Query(address, true, None, None, 10, 0);
    first, finished := FirstRequest(db, [stored], q, Some(own), 1);
    assert FirstListing(q, [stored], Some(own))[0] == Items(own)[0];
    second, finished := Scan(db, [stored], address, true, 10, Some(6), None, [], 1);
    ghost var rest := Select(InOrder([stored], true), address, true, 10, None);
    assert rest == [Item(9, older)] by {
      assert InOrder([stored], true) == [stored];
      SelectOne(stored, 10, None);
      assert Items(stored) == [Item(9, older)];
    }
    assert rest[1..] == [];
    assert Skip(true, Some(6), rest) == Skip(true, Some(6), []);
  }
}
